/** The strings that BIP 173 and BIP 350 give for an empty payload, which fix the two checksum constants. */
module Bech32Known {
  import opened Bech32Code
  import opened Bech32

  lemma RunOne(c: bv32, v: seq<bv32>, x: bv32)
    ensures Run(c, v + [x]) == Step(Run(c, v), x)
  {
    hide Step;
    assert (v + [x])[..|v + [x]| - 1] == v;
  }

  lemma RunThree(c: bv32, x: bv32, y: bv32, z: bv32)
    ensures Run(c, [x, y, z]) == Step(Step(Step(c, x), y), z)
  {
    hide Step;
    assert [x] == [] + [x] && [x, y] == [x] + [y] && [x, y, z] == [x, y] + [z];
    RunOne(c, [], x);
    RunOne(c, [x], y);
    RunOne(c, [x, y], z);
  }

  /** The symbols of the prefix "a". */
  lemma PreparedA(all: seq<bv32>)
    ensures Bytes("a") && Prepared("a", all) == [3, 0, 1] + all
  {
    assert HighAll("a") == [3] && LowAll("a") == [1];
  }

  lemma StepsFirst()
    ensures Step(Step(Step(1, 3), 0), 1) == 0x8c01
  {
    assert Step(1, 3) == 0x23 && Step(0x23, 0) == 0x460;
  }

  lemma StepsNewer()
    ensures Step(Step(Step(0x8c01, 31), 0), 9) == 0x3d6aabbb
    ensures Step(Step(Step(0x3d6aabbb, 19), 17), 29) == 0x2bc830a3
  {
    assert Step(0x8c01, 31) == 0x11803f && Step(0x11803f, 0) == 0x23007e0;
    assert Step(0x3d6aabbb, 19) == 0x2f2b18a && Step(0x2f2b18a, 17) == 0x253c66e3;
  }

  lemma StepsOlder()
    ensures Step(Step(Step(0x8c01, 10), 28), 25) == 0x3d6afc2b
    ensures Step(Step(Step(0x3d6afc2b, 31), 20), 31) == 1
  {
    assert Step(0x8c01, 10) == 0x11802a && Step(0x11802a, 28) == 0x230055c;
    assert Step(0x3d6afc2b, 31) == 0x2f84386 && Step(0x2f84386, 20) == 0x24622766;
  }

  lemma RunNine(x: bv32, y: bv32, z: bv32, u: bv32, v: bv32, w: bv32)
    ensures Run(1, Prepared("a", []) + [x, y, z, u, v, w]) ==
            Step(Step(Step(Step(Step(Step(0x8c01, x), y), z), u), v), w)
  {
    hide Step;
    PreparedA([]);
    StepsFirst();
    var p: seq<bv32> := [3, 0, 1];
    assert p + [] == p;
    assert p + [x, y, z, u, v, w] == p + [x, y, z] + [u, v, w];
    RunConcat(1, p + [x, y, z], [u, v, w]);
    RunConcat(1, p, [x, y, z]);
    RunThree(1, 3, 0, 1);
    RunThree(0x8c01, x, y, z);
    RunThree(Run(0x8c01, [x, y, z]), u, v, w);
  }

  /** The checksum of an empty payload with the prefix "a". */
  lemma KnownChecksums()
    ensures ChecksumOf(BECH32M, "a", []) == [31, 0, 9, 19, 17, 29]
    ensures ChecksumOf(BECH32, "a", []) == [10, 28, 25, 31, 20, 31]
  {
    hide Run, Step, Checksum;
    PreparedSymbols("a", []);
    ConstantsDiffer();
    StepsNewer();
    RunNine(31, 0, 9, 19, 17, 29);
    ChecksumOfIs(BECH32M, "a", []);
    ChecksumUnique(Prepared("a", []), [31, 0, 9, 19, 17, 29], EncodingConstant(BECH32M));
    StepsOlder();
    RunNine(10, 28, 25, 31, 20, 31);
    ChecksumOfIs(BECH32, "a", []);
    ChecksumUnique(Prepared("a", []), [10, 28, 25, 31, 20, 31], EncodingConstant(BECH32));
  }

  /** "a1lqfn3a" and "a12uel5l". */
  lemma KnownStrings()
    ensures Encoded(BECH32M, "a", []) == "a1lqfn3a" && Encoded(BECH32, "a", []) == "a12uel5l"
  {
    hide ChecksumOf;
    KnownChecksums();
    KnownText();
    assert [] + ChecksumOf(BECH32M, "a", []) == [31, 0, 9, 19, 17, 29];
    assert [] + ChecksumOf(BECH32, "a", []) == [10, 28, 25, 31, 20, 31];
  }

  lemma KnownText()
    ensures Text([31, 0, 9, 19, 17, 29]) == "lqfn3a" && Text([10, 28, 25, 31, 20, 31]) == "2uel5l"
  {
    assert CharOf(31) == 'l' && CharOf(0) == 'q' && CharOf(9) == 'f' && CharOf(19) == 'n' && CharOf(17) == '3';
    assert CharOf(29) == 'a' && CharOf(10) == '2' && CharOf(28) == 'u' && CharOf(25) == 'e' && CharOf(20) == '5';
  }
}
