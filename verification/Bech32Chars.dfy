/** The character tables of Bech32, in both directions. */
module Bech32Chars {

  const CHARSET: string := "qpzry9x8gf2tvdw0s3jn54khce6mua7l"

  // The reverse table in rows of sixteen; its first three rows are all -1.
  const REV3: seq<int> := [15, -1, 10, 17, 21, 20, 26, 30, 7, 5, -1, -1, -1, -1, -1, -1]
  const REV4: seq<int> := [-1, 29, -1, 24, 13, 25, 9, 8, 23, -1, 18, 22, 31, 27, 19, -1]
  const REV5: seq<int> := [1, 0, 3, 16, 11, 28, 12, 14, 6, 4, 2, -1, -1, -1, -1, -1]
  const REV6: seq<int> := [-1, 29, -1, 24, 13, 25, 9, 8, 23, -1, 18, 22, 31, 27, 19, -1]
  const REV7: seq<int> := [1, 0, 3, 16, 11, 28, 12, 14, 6, 4, 2, -1, -1, -1, -1, -1]

  /** The value of the character with code `c`, or -1. */
  function CharsetRev(c: nat): int
    requires c < 128
  {
    if c < 48 then -1
    else if c < 64 then REV3[c - 48]
    else if c < 80 then REV4[c - 64]
    else if c < 96 then REV5[c - 80]
    else if c < 112 then REV6[c - 96]
    else REV7[c - 112]
  }

  function LowerCase(c: char): char {
    if 'A' <= c <= 'Z' then (c as int - 'A' as int + 'a' as int) as char else c
  }

  lemma CharsetIsCode(v: nat)
    requires v < 32
    ensures 'a' <= CHARSET[v] <= 'z' || '0' <= CHARSET[v] <= '9'
    ensures CHARSET[v] != '1'
  {
  }

  ghost predicate RoundTrips(v: nat) {
    v < 32 && CHARSET[v] as nat < 128 && CharsetRev(CHARSET[v] as nat) == v
  }

  /** The reverse table undoes the forward table. */
  lemma CharsetRoundTrip(v: nat)
    requires v < 32
    ensures RoundTrips(v)
  {
    hide RoundTrips;
    if v < 8 {
      FirstRoundTrip(v);
    } else if v < 16 {
      SecondRoundTrip(v);
    } else if v < 24 {
      ThirdRoundTrip(v);
    } else {
      FourthRoundTrip(v);
    }
  }

  lemma FirstRoundTrip(v: nat)
    requires v < 8
    ensures RoundTrips(v)
  {
    assert CHARSET[0] == 'q' && CharsetRev(113) == 0;
    assert CHARSET[1] == 'p' && CharsetRev(112) == 1;
    assert CHARSET[2] == 'z' && CharsetRev(122) == 2;
    assert CHARSET[3] == 'r' && CharsetRev(114) == 3;
    assert CHARSET[4] == 'y' && CharsetRev(121) == 4;
    assert CHARSET[5] == '9' && CharsetRev(57) == 5;
    assert CHARSET[6] == 'x' && CharsetRev(120) == 6;
    assert CHARSET[7] == '8' && CharsetRev(56) == 7;
  }

  lemma SecondRoundTrip(v: nat)
    requires 8 <= v < 16
    ensures RoundTrips(v)
  {
    assert CHARSET[8] == 'g' && CharsetRev(103) == 8;
    assert CHARSET[9] == 'f' && CharsetRev(102) == 9;
    assert CHARSET[10] == '2' && CharsetRev(50) == 10;
    assert CHARSET[11] == 't' && CharsetRev(116) == 11;
    assert CHARSET[12] == 'v' && CharsetRev(118) == 12;
    assert CHARSET[13] == 'd' && CharsetRev(100) == 13;
    assert CHARSET[14] == 'w' && CharsetRev(119) == 14;
    assert CHARSET[15] == '0' && CharsetRev(48) == 15;
  }

  lemma ThirdRoundTrip(v: nat)
    requires 16 <= v < 24
    ensures RoundTrips(v)
  {
    assert CHARSET[16] == 's' && CharsetRev(115) == 16;
    assert CHARSET[17] == '3' && CharsetRev(51) == 17;
    assert CHARSET[18] == 'j' && CharsetRev(106) == 18;
    assert CHARSET[19] == 'n' && CharsetRev(110) == 19;
    assert CHARSET[20] == '5' && CharsetRev(53) == 20;
    assert CHARSET[21] == '4' && CharsetRev(52) == 21;
    assert CHARSET[22] == 'k' && CharsetRev(107) == 22;
    assert CHARSET[23] == 'h' && CharsetRev(104) == 23;
  }

  lemma FourthRoundTrip(v: nat)
    requires 24 <= v < 32
    ensures RoundTrips(v)
  {
    assert CHARSET[24] == 'c' && CharsetRev(99) == 24;
    assert CHARSET[25] == 'e' && CharsetRev(101) == 25;
    assert CHARSET[26] == '6' && CharsetRev(54) == 26;
    assert CHARSET[27] == 'm' && CharsetRev(109) == 27;
    assert CHARSET[28] == 'u' && CharsetRev(117) == 28;
    assert CHARSET[29] == 'a' && CharsetRev(97) == 29;
    assert CHARSET[30] == '7' && CharsetRev(55) == 30;
    assert CHARSET[31] == 'l' && CharsetRev(108) == 31;
  }

  /** The forward table undoes the reverse table, up to case. */
  lemma RevRoundTrip(c: char)
    requires c as nat < 128
    ensures CharsetRev(c as nat) != -1 ==>
            0 <= CharsetRev(c as nat) < 32 && CHARSET[CharsetRev(c as nat)] == LowerCase(c)
  {
    RevRow(c as nat);
  }

  ghost predicate RevRight(c: nat)
    requires c < 128
  {
    CharsetRev(c) != -1 ==>
      0 <= CharsetRev(c) < 32 && CHARSET[CharsetRev(c)] as nat == if 65 <= c <= 90 then c + 32 else c
  }

  lemma RevRow(c: nat)
    requires c < 128
    ensures RevRight(c)
  {
    if 112 <= c { RevRow7(c); } else if 96 <= c { RevRow6(c); } else if 80 <= c { RevRow5(c); }
    else if 64 <= c { RevRow4(c); } else if 48 <= c { RevRow3(c); }
  }

  lemma RevRow3(c: nat)
    requires 48 <= c < 64
    ensures RevRight(c)
  {
    assert CharsetRev(48) == 15 && CharsetRev(49) == -1 && CharsetRev(50) == 10 && CharsetRev(51) == 17
           && CharsetRev(52) == 21 && CharsetRev(53) == 20 && CharsetRev(54) == 26 && CharsetRev(55) == 30;
    assert CharsetRev(56) == 7 && CharsetRev(57) == 5 && CharsetRev(58) == -1 && CharsetRev(59) == -1
           && CharsetRev(60) == -1 && CharsetRev(61) == -1 && CharsetRev(62) == -1 && CharsetRev(63) == -1;
  }

  lemma RevRow4(c: nat)
    requires 64 <= c < 80
    ensures RevRight(c)
  {
    assert CharsetRev(64) == -1 && CharsetRev(65) == 29 && CharsetRev(66) == -1 && CharsetRev(67) == 24
           && CharsetRev(68) == 13 && CharsetRev(69) == 25 && CharsetRev(70) == 9 && CharsetRev(71) == 8;
    assert CharsetRev(72) == 23 && CharsetRev(73) == -1 && CharsetRev(74) == 18 && CharsetRev(75) == 22
           && CharsetRev(76) == 31 && CharsetRev(77) == 27 && CharsetRev(78) == 19 && CharsetRev(79) == -1;
  }

  lemma RevRow5(c: nat)
    requires 80 <= c < 96
    ensures RevRight(c)
  {
    assert CharsetRev(80) == 1 && CharsetRev(81) == 0 && CharsetRev(82) == 3 && CharsetRev(83) == 16
           && CharsetRev(84) == 11 && CharsetRev(85) == 28 && CharsetRev(86) == 12 && CharsetRev(87) == 14;
    assert CharsetRev(88) == 6 && CharsetRev(89) == 4 && CharsetRev(90) == 2 && CharsetRev(91) == -1
           && CharsetRev(92) == -1 && CharsetRev(93) == -1 && CharsetRev(94) == -1 && CharsetRev(95) == -1;
  }

  lemma RevRow6(c: nat)
    requires 96 <= c < 112
    ensures RevRight(c)
  {
    assert CharsetRev(96) == -1 && CharsetRev(97) == 29 && CharsetRev(98) == -1 && CharsetRev(99) == 24
           && CharsetRev(100) == 13 && CharsetRev(101) == 25 && CharsetRev(102) == 9 && CharsetRev(103) == 8;
    assert CharsetRev(104) == 23 && CharsetRev(105) == -1 && CharsetRev(106) == 18 && CharsetRev(107) == 22
           && CharsetRev(108) == 31 && CharsetRev(109) == 27 && CharsetRev(110) == 19 && CharsetRev(111) == -1;
  }

  lemma RevRow7(c: nat)
    requires 112 <= c < 128
    ensures RevRight(c)
  {
    assert CharsetRev(112) == 1 && CharsetRev(113) == 0 && CharsetRev(114) == 3 && CharsetRev(115) == 16
           && CharsetRev(116) == 11 && CharsetRev(117) == 28 && CharsetRev(118) == 12 && CharsetRev(119) == 14;
    assert CharsetRev(120) == 6 && CharsetRev(121) == 4 && CharsetRev(122) == 2 && CharsetRev(123) == -1
           && CharsetRev(124) == -1 && CharsetRev(125) == -1 && CharsetRev(126) == -1 && CharsetRev(127) == -1;
  }

  /** The reverse table does not distinguish the cases. */
  lemma RevIgnoresCase(c: char)
    requires c as nat < 128
    ensures LowerCase(c) as nat < 128 && CharsetRev(c as nat) == CharsetRev(LowerCase(c) as nat)
  {
    assert REV4 == REV6 && REV5 == REV7;
  }

  /** The reverse table accepts the thirty-two characters in either case, and nothing else. */
  lemma RevAccepts(c: char)
    requires c as nat < 128
    ensures CharsetRev(c as nat) != -1 <==> LowerCase(c) in CHARSET
  {
    hide CharsetRev, LowerCase;
    RevRoundTrip(c);
    if LowerCase(c) in CHARSET {
      var v :| 0 <= v < |CHARSET| && CHARSET[v] == LowerCase(c);
      assert |CHARSET| == 32;
      CharsetRoundTrip(v);
      RevIgnoresCase(c);
    }
  }
}
