/**
 The search behind the detection of four errors, on 7-bit words: no differences of
 four positions within 89 are balanced.
 */
module Bech32Search {

  type Word = bv7

  /** The residues of the distances from 1 to 88. */
  function Table(x: Word): Word
  {
    if x & 64 == 0 then
      if x & 32 == 0 then
        if x & 16 == 0 then
          if x & 8 == 0 then
            if x & 4 == 0 then
              if x & 2 == 0 then (if x & 1 == 0 then 0 else 32) else (if x & 1 == 0 then 31 else 9)
            else
              if x & 2 == 0 then (if x & 1 == 0 then 29 else 24) else (if x & 1 == 0 then 18 else 10)
          else
            if x & 4 == 0 then
              if x & 2 == 0 then (if x & 1 == 0 then 25 else 22) else (if x & 1 == 0 then 15 else 32)
            else
              if x & 2 == 0 then (if x & 1 == 0 then 3 else 16) else (if x & 1 == 0 then 20 else 30)
        else
          if x & 8 == 0 then
            if x & 4 == 0 then
              if x & 2 == 0 then (if x & 1 == 0 then 17 else 8) else (if x & 1 == 0 then 11 else 21)
            else
              if x & 2 == 0 then (if x & 1 == 0 then 30 else 29) else (if x & 1 == 0 then 31 else 7)
          else
            if x & 4 == 0 then
              if x & 2 == 0 then (if x & 1 == 0 then 6 else 24) else (if x & 1 == 0 then 32 else 8)
            else
              if x & 2 == 0 then (if x & 1 == 0 then 7 else 3) else (if x & 1 == 0 then 27 else 25)
      else
        if x & 16 == 0 then
          if x & 8 == 0 then
            if x & 4 == 0 then
              if x & 2 == 0 then (if x & 1 == 0 then 1 else 0) else (if x & 1 == 0 then 16 else 5)
            else
              if x & 2 == 0 then (if x & 1 == 0 then 22 else 0) else (if x & 1 == 0 then 9 else 8)
          else
            if x & 4 == 0 then
              if x & 2 == 0 then (if x & 1 == 0 then 27 else 14) else (if x & 1 == 0 then 25 else 4)
            else
              if x & 2 == 0 then (if x & 1 == 0 then 29 else 23) else (if x & 1 == 0 then 14 else 5)
        else
          if x & 8 == 0 then
            if x & 4 == 0 then
              if x & 2 == 0 then (if x & 1 == 0 then 12 else 14) else (if x & 1 == 0 then 15 else 20)
            else
              if x & 2 == 0 then (if x & 1 == 0 then 31 else 21) else (if x & 1 == 0 then 16 else 8)
          else
            if x & 4 == 0 then
              if x & 2 == 0 then (if x & 1 == 0 then 14 else 5) else (if x & 1 == 0 then 6 else 9)
            else
              if x & 2 == 0 then (if x & 1 == 0 then 21 else 16) else (if x & 1 == 0 then 17 else 15)
    else
      if x & 32 == 0 then
        if x & 16 == 0 then
          if x & 8 == 0 then
            if x & 4 == 0 then
              if x & 2 == 0 then (if x & 1 == 0 then 2 else 17) else (if x & 1 == 0 then 0 else 5)
            else
              if x & 2 == 0 then (if x & 1 == 0 then 32 else 25) else (if x & 1 == 0 then 10 else 8)
          else
            if x & 4 == 0 then
              if x & 2 == 0 then (if x & 1 == 0 then 11 else 0) else (if x & 1 == 0 then 0 else 4)
            else
              if x & 2 == 0 then (if x & 1 == 0 then 18 else 13) else (if x & 1 == 0 then 16 else 17)
        else
          if x & 8 == 0 then
            if x & 4 == 0 then
              if x & 2 == 0 then (if x & 1 == 0 then 21 else 4) else (if x & 1 == 0 then 28 else 7)
            else
              if x & 2 == 0 then (if x & 1 == 0 then 17 else 6) else (if x & 1 == 0 then 8 else 15)
          else
            if x & 4 == 0 then
              if x & 2 == 0 then (if x & 1 == 0 then 25 else 0) else 0
            else
              0
      else
        0
  }

  /** Eight times a distance up to 88, modulo 33. */
  function Eight(x: Word): Word
  {
    if x & 64 == 0 then
      if x & 32 == 0 then
        if x & 16 == 0 then
          if x & 8 == 0 then
            if x & 4 == 0 then
              if x & 2 == 0 then (if x & 1 == 0 then 0 else 8) else (if x & 1 == 0 then 16 else 24)
            else
              if x & 2 == 0 then (if x & 1 == 0 then 32 else 7) else (if x & 1 == 0 then 15 else 23)
          else
            if x & 4 == 0 then
              if x & 2 == 0 then (if x & 1 == 0 then 31 else 6) else (if x & 1 == 0 then 14 else 22)
            else
              if x & 2 == 0 then (if x & 1 == 0 then 30 else 5) else (if x & 1 == 0 then 13 else 21)
        else
          if x & 8 == 0 then
            if x & 4 == 0 then
              if x & 2 == 0 then (if x & 1 == 0 then 29 else 4) else (if x & 1 == 0 then 12 else 20)
            else
              if x & 2 == 0 then (if x & 1 == 0 then 28 else 3) else (if x & 1 == 0 then 11 else 19)
          else
            if x & 4 == 0 then
              if x & 2 == 0 then (if x & 1 == 0 then 27 else 2) else (if x & 1 == 0 then 10 else 18)
            else
              if x & 2 == 0 then (if x & 1 == 0 then 26 else 1) else (if x & 1 == 0 then 9 else 17)
      else
        if x & 16 == 0 then
          if x & 8 == 0 then
            if x & 4 == 0 then
              if x & 2 == 0 then (if x & 1 == 0 then 25 else 0) else (if x & 1 == 0 then 8 else 16)
            else
              if x & 2 == 0 then (if x & 1 == 0 then 24 else 32) else (if x & 1 == 0 then 7 else 15)
          else
            if x & 4 == 0 then
              if x & 2 == 0 then (if x & 1 == 0 then 23 else 31) else (if x & 1 == 0 then 6 else 14)
            else
              if x & 2 == 0 then (if x & 1 == 0 then 22 else 30) else (if x & 1 == 0 then 5 else 13)
        else
          if x & 8 == 0 then
            if x & 4 == 0 then
              if x & 2 == 0 then (if x & 1 == 0 then 21 else 29) else (if x & 1 == 0 then 4 else 12)
            else
              if x & 2 == 0 then (if x & 1 == 0 then 20 else 28) else (if x & 1 == 0 then 3 else 11)
          else
            if x & 4 == 0 then
              if x & 2 == 0 then (if x & 1 == 0 then 19 else 27) else (if x & 1 == 0 then 2 else 10)
            else
              if x & 2 == 0 then (if x & 1 == 0 then 18 else 26) else (if x & 1 == 0 then 1 else 9)
    else
      if x & 32 == 0 then
        if x & 16 == 0 then
          if x & 8 == 0 then
            if x & 4 == 0 then
              if x & 2 == 0 then (if x & 1 == 0 then 17 else 25) else (if x & 1 == 0 then 0 else 8)
            else
              if x & 2 == 0 then (if x & 1 == 0 then 16 else 24) else (if x & 1 == 0 then 32 else 7)
          else
            if x & 4 == 0 then
              if x & 2 == 0 then (if x & 1 == 0 then 15 else 23) else (if x & 1 == 0 then 31 else 6)
            else
              if x & 2 == 0 then (if x & 1 == 0 then 14 else 22) else (if x & 1 == 0 then 30 else 5)
        else
          if x & 8 == 0 then
            if x & 4 == 0 then
              if x & 2 == 0 then (if x & 1 == 0 then 13 else 21) else (if x & 1 == 0 then 29 else 4)
            else
              if x & 2 == 0 then (if x & 1 == 0 then 12 else 20) else (if x & 1 == 0 then 28 else 3)
          else
            if x & 4 == 0 then
              if x & 2 == 0 then (if x & 1 == 0 then 11 else 0) else 0
            else
              0
      else
        0
  }

  function Sum(x: Word, y: Word): Word
  {
    if x + y < 33 then x + y else x + y - 33
  }

  /** The positions are 0, c, c + s and c + t. */
  predicate Candidate(c: Word, s: Word, t: Word)
  {
    && Table(s + c) == Sum(Table(t), Eight(c))
    && Table(t + c) == Sum(Table(s), Eight(c))
    && Table(c) == Sum(Table(t - s), Eight(s + c))
  }

  lemma From1(c: Word, s: Word, t: Word)
    requires c == 1 && 0 < s < t <= 88 - c
    ensures !Candidate(c, s, t)
  {
  }

  lemma From2(c: Word, s: Word, t: Word)
    requires c == 2 && 0 < s < t <= 88 - c
    ensures !Candidate(c, s, t)
  {
  }

  lemma From3(c: Word, s: Word, t: Word)
    requires c == 3 && 0 < s < t <= 88 - c
    ensures !Candidate(c, s, t)
  {
  }

  lemma From4(c: Word, s: Word, t: Word)
    requires c == 4 && 0 < s < t <= 88 - c
    ensures !Candidate(c, s, t)
  {
  }

  lemma From5(c: Word, s: Word, t: Word)
    requires c == 5 && 0 < s < t <= 88 - c
    ensures !Candidate(c, s, t)
  {
  }

  lemma From6(c: Word, s: Word, t: Word)
    requires c == 6 && 0 < s < t <= 88 - c
    ensures !Candidate(c, s, t)
  {
  }

  lemma From7(c: Word, s: Word, t: Word)
    requires c == 7 && 0 < s < t <= 88 - c
    ensures !Candidate(c, s, t)
  {
  }

  lemma From8(c: Word, s: Word, t: Word)
    requires c == 8 && 0 < s < t <= 88 - c
    ensures !Candidate(c, s, t)
  {
  }

  lemma From9(c: Word, s: Word, t: Word)
    requires c == 9 && 0 < s < t <= 88 - c
    ensures !Candidate(c, s, t)
  {
  }

  lemma From10(c: Word, s: Word, t: Word)
    requires c == 10 && 0 < s < t <= 88 - c
    ensures !Candidate(c, s, t)
  {
  }

  lemma From11(c: Word, s: Word, t: Word)
    requires c == 11 && 0 < s < t <= 88 - c
    ensures !Candidate(c, s, t)
  {
  }

  lemma From12(c: Word, s: Word, t: Word)
    requires c == 12 && 0 < s < t <= 88 - c
    ensures !Candidate(c, s, t)
  {
  }

  lemma From13(c: Word, s: Word, t: Word)
    requires c == 13 && 0 < s < t <= 88 - c
    ensures !Candidate(c, s, t)
  {
  }

  lemma From14(c: Word, s: Word, t: Word)
    requires c == 14 && 0 < s < t <= 88 - c
    ensures !Candidate(c, s, t)
  {
  }

  lemma From15(c: Word, s: Word, t: Word)
    requires c == 15 && 0 < s < t <= 88 - c
    ensures !Candidate(c, s, t)
  {
  }

  lemma From16(c: Word, s: Word, t: Word)
    requires c == 16 && 0 < s < t <= 88 - c
    ensures !Candidate(c, s, t)
  {
  }

  lemma From17(c: Word, s: Word, t: Word)
    requires c == 17 && 0 < s < t <= 88 - c
    ensures !Candidate(c, s, t)
  {
  }

  lemma From18(c: Word, s: Word, t: Word)
    requires c == 18 && 0 < s < t <= 88 - c
    ensures !Candidate(c, s, t)
  {
  }

  lemma From19(c: Word, s: Word, t: Word)
    requires c == 19 && 0 < s < t <= 88 - c
    ensures !Candidate(c, s, t)
  {
  }

  lemma From20(c: Word, s: Word, t: Word)
    requires c == 20 && 0 < s < t <= 88 - c
    ensures !Candidate(c, s, t)
  {
  }

  lemma From21(c: Word, s: Word, t: Word)
    requires c == 21 && 0 < s < t <= 88 - c
    ensures !Candidate(c, s, t)
  {
  }

  lemma From22(c: Word, s: Word, t: Word)
    requires c == 22 && 0 < s < t <= 88 - c
    ensures !Candidate(c, s, t)
  {
  }

  lemma From23(c: Word, s: Word, t: Word)
    requires c == 23 && 0 < s < t <= 88 - c
    ensures !Candidate(c, s, t)
  {
  }

  lemma From24(c: Word, s: Word, t: Word)
    requires c == 24 && 0 < s < t <= 88 - c
    ensures !Candidate(c, s, t)
  {
  }

  lemma From25(c: Word, s: Word, t: Word)
    requires c == 25 && 0 < s < t <= 88 - c
    ensures !Candidate(c, s, t)
  {
  }

  lemma From26(c: Word, s: Word, t: Word)
    requires c == 26 && 0 < s < t <= 88 - c
    ensures !Candidate(c, s, t)
  {
  }

  lemma From27(c: Word, s: Word, t: Word)
    requires c == 27 && 0 < s < t <= 88 - c
    ensures !Candidate(c, s, t)
  {
  }

  lemma From28(c: Word, s: Word, t: Word)
    requires c == 28 && 0 < s < t <= 88 - c
    ensures !Candidate(c, s, t)
  {
  }

  lemma From29(c: Word, s: Word, t: Word)
    requires c == 29 && 0 < s < t <= 88 - c
    ensures !Candidate(c, s, t)
  {
  }

  lemma From30(c: Word, s: Word, t: Word)
    requires c == 30 && 0 < s < t <= 88 - c
    ensures !Candidate(c, s, t)
  {
  }

  lemma From31(c: Word, s: Word, t: Word)
    requires c == 31 && 0 < s < t <= 88 - c
    ensures !Candidate(c, s, t)
  {
  }

  lemma From32(c: Word, s: Word, t: Word)
    requires c == 32 && 0 < s < t <= 88 - c
    ensures !Candidate(c, s, t)
  {
  }

  lemma From33(c: Word, s: Word, t: Word)
    requires c == 33 && 0 < s < t <= 88 - c
    ensures !Candidate(c, s, t)
  {
  }

  lemma From34(c: Word, s: Word, t: Word)
    requires c == 34 && 0 < s < t <= 88 - c
    ensures !Candidate(c, s, t)
  {
  }

  lemma From35(c: Word, s: Word, t: Word)
    requires c == 35 && 0 < s < t <= 88 - c
    ensures !Candidate(c, s, t)
  {
  }

  lemma From36(c: Word, s: Word, t: Word)
    requires c == 36 && 0 < s < t <= 88 - c
    ensures !Candidate(c, s, t)
  {
  }

  lemma From37(c: Word, s: Word, t: Word)
    requires c == 37 && 0 < s < t <= 88 - c
    ensures !Candidate(c, s, t)
  {
  }

  lemma From38(c: Word, s: Word, t: Word)
    requires c == 38 && 0 < s < t <= 88 - c
    ensures !Candidate(c, s, t)
  {
  }

  lemma From39(c: Word, s: Word, t: Word)
    requires c == 39 && 0 < s < t <= 88 - c
    ensures !Candidate(c, s, t)
  {
  }

  lemma From40(c: Word, s: Word, t: Word)
    requires c == 40 && 0 < s < t <= 88 - c
    ensures !Candidate(c, s, t)
  {
  }

  lemma From41(c: Word, s: Word, t: Word)
    requires c == 41 && 0 < s < t <= 88 - c
    ensures !Candidate(c, s, t)
  {
  }

  lemma From42(c: Word, s: Word, t: Word)
    requires c == 42 && 0 < s < t <= 88 - c
    ensures !Candidate(c, s, t)
  {
  }

  lemma From43(c: Word, s: Word, t: Word)
    requires c == 43 && 0 < s < t <= 88 - c
    ensures !Candidate(c, s, t)
  {
  }

  lemma From44(c: Word, s: Word, t: Word)
    requires c == 44 && 0 < s < t <= 88 - c
    ensures !Candidate(c, s, t)
  {
  }

  lemma From45(c: Word, s: Word, t: Word)
    requires c == 45 && 0 < s < t <= 88 - c
    ensures !Candidate(c, s, t)
  {
  }

  lemma From46(c: Word, s: Word, t: Word)
    requires c == 46 && 0 < s < t <= 88 - c
    ensures !Candidate(c, s, t)
  {
  }

  lemma From47(c: Word, s: Word, t: Word)
    requires c == 47 && 0 < s < t <= 88 - c
    ensures !Candidate(c, s, t)
  {
  }

  lemma From48(c: Word, s: Word, t: Word)
    requires c == 48 && 0 < s < t <= 88 - c
    ensures !Candidate(c, s, t)
  {
  }

  lemma From49(c: Word, s: Word, t: Word)
    requires c == 49 && 0 < s < t <= 88 - c
    ensures !Candidate(c, s, t)
  {
  }

  lemma From50(c: Word, s: Word, t: Word)
    requires c == 50 && 0 < s < t <= 88 - c
    ensures !Candidate(c, s, t)
  {
  }

  lemma From51(c: Word, s: Word, t: Word)
    requires c == 51 && 0 < s < t <= 88 - c
    ensures !Candidate(c, s, t)
  {
  }

  lemma From52(c: Word, s: Word, t: Word)
    requires c == 52 && 0 < s < t <= 88 - c
    ensures !Candidate(c, s, t)
  {
  }

  lemma From53(c: Word, s: Word, t: Word)
    requires c == 53 && 0 < s < t <= 88 - c
    ensures !Candidate(c, s, t)
  {
  }

  lemma From54(c: Word, s: Word, t: Word)
    requires 54 <= c <= 56 && 0 < s < t <= 88 - c
    ensures !Candidate(c, s, t)
  {
  }

  lemma From57(c: Word, s: Word, t: Word)
    requires 57 <= c <= 60 && 0 < s < t <= 88 - c
    ensures !Candidate(c, s, t)
  {
  }

  lemma From61(c: Word, s: Word, t: Word)
    requires 61 <= c <= 66 && 0 < s < t <= 88 - c
    ensures !Candidate(c, s, t)
  {
  }

  lemma From67(c: Word, s: Word, t: Word)
    requires 67 <= c <= 86 && 0 < s < t <= 88 - c
    ensures !Candidate(c, s, t)
  {
  }

  /** No four positions within 89 are balanced. */
  lemma NoCandidate(c: Word, s: Word, t: Word)
    requires 0 < c <= 86 && 0 < s < t <= 88 - c
    ensures !Candidate(c, s, t)
  {
    hide Candidate;
    if c == 1 {
      From1(c, s, t);
    } else if c == 2 {
      From2(c, s, t);
    } else if c == 3 {
      From3(c, s, t);
    } else if c == 4 {
      From4(c, s, t);
    } else if c == 5 {
      From5(c, s, t);
    } else if c == 6 {
      From6(c, s, t);
    } else if c == 7 {
      From7(c, s, t);
    } else if c == 8 {
      From8(c, s, t);
    } else if c == 9 {
      From9(c, s, t);
    } else if c == 10 {
      From10(c, s, t);
    } else if c == 11 {
      From11(c, s, t);
    } else if c == 12 {
      From12(c, s, t);
    } else if c == 13 {
      From13(c, s, t);
    } else if c == 14 {
      From14(c, s, t);
    } else if c == 15 {
      From15(c, s, t);
    } else if c == 16 {
      From16(c, s, t);
    } else if c == 17 {
      From17(c, s, t);
    } else if c == 18 {
      From18(c, s, t);
    } else if c == 19 {
      From19(c, s, t);
    } else if c == 20 {
      From20(c, s, t);
    } else if c == 21 {
      From21(c, s, t);
    } else if c == 22 {
      From22(c, s, t);
    } else if c == 23 {
      From23(c, s, t);
    } else if c == 24 {
      From24(c, s, t);
    } else if c == 25 {
      From25(c, s, t);
    } else if c == 26 {
      From26(c, s, t);
    } else if c == 27 {
      From27(c, s, t);
    } else if c == 28 {
      From28(c, s, t);
    } else if c == 29 {
      From29(c, s, t);
    } else if c == 30 {
      From30(c, s, t);
    } else if c == 31 {
      From31(c, s, t);
    } else if c == 32 {
      From32(c, s, t);
    } else if c == 33 {
      From33(c, s, t);
    } else if c == 34 {
      From34(c, s, t);
    } else if c == 35 {
      From35(c, s, t);
    } else if c == 36 {
      From36(c, s, t);
    } else if c == 37 {
      From37(c, s, t);
    } else if c == 38 {
      From38(c, s, t);
    } else if c == 39 {
      From39(c, s, t);
    } else if c == 40 {
      From40(c, s, t);
    } else if c == 41 {
      From41(c, s, t);
    } else if c == 42 {
      From42(c, s, t);
    } else if c == 43 {
      From43(c, s, t);
    } else if c == 44 {
      From44(c, s, t);
    } else if c == 45 {
      From45(c, s, t);
    } else if c == 46 {
      From46(c, s, t);
    } else if c == 47 {
      From47(c, s, t);
    } else if c == 48 {
      From48(c, s, t);
    } else if c == 49 {
      From49(c, s, t);
    } else if c == 50 {
      From50(c, s, t);
    } else if c == 51 {
      From51(c, s, t);
    } else if c == 52 {
      From52(c, s, t);
    } else if c == 53 {
      From53(c, s, t);
    } else if c <= 56 {
      From54(c, s, t);
    } else if c <= 60 {
      From57(c, s, t);
    } else if c <= 66 {
      From61(c, s, t);
    } else {
      From67(c, s, t);
    }
  }
}
