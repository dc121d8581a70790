// Helpers of the ThinLTO code generator: the Base16 encoding of the cache
// hash, the cache file name built from it, the module map keyed by buffer
// identifier, and the default CPU chosen for Darwin triples.

module ThinLto {

  type byte = b: int | 0 <= b < 256

  /** The upper-case Base16 alphabet (section 8 of RFC 4648). */
  const HexDigits: string := "0123456789ABCDEF"

  predicate IsHexDigit(ch: char) {
    '0' <= ch <= '9' || 'A' <= ch <= 'F'
  }

  /** Value of one upper-case hexadecimal digit (0 for any other character). */
  function DigitValue(ch: char): (v: nat)
    ensures v < 16
    ensures IsHexDigit(ch) ==> HexDigits[v] == ch
  {
    if '0' <= ch <= '9' then ch as int - '0' as int
    else if 'A' <= ch <= 'F' then ch as int - 'A' as int + 10
    else 0
  }

  lemma DigitValueOf(v: nat)
    requires v < 16
    ensures IsHexDigit(HexDigits[v]) && DigitValue(HexDigits[v]) == v
  {
  }

  /** The two characters emitted for one byte: high nibble, then low nibble. */
  function HexPair(c: byte): string {
    [HexDigits[c / 16], HexDigits[c % 16]]
  }

  /** Specification of the encoding: the pairs of all bytes, in order. */
  function Hex(input: seq<byte>): string {
    if input == [] then [] else Hex(input[..|input| - 1]) + HexPair(input[|input| - 1])
  }

  /** A string of upper-case hexadecimal digits, two per byte. */
  predicate IsHexString(s: string) {
    |s| % 2 == 0 && forall k :: 0 <= k < |s| ==> IsHexDigit(s[k])
  }

  /** Decoding: every two digits give back one byte. */
  function Unhex(s: string): seq<byte>
    requires |s| % 2 == 0
  {
    if s == [] then []
    else
      var n := |s|;
      Unhex(s[..n - 2]) + [16 * DigitValue(s[n - 2]) + DigitValue(s[n - 1])]
  }

  /** Encodes the bytes of `input` as upper-case hexadecimal, two characters
      per byte, the high nibble first. */
  method ToHex(input: seq<byte>) returns (output: string)
    ensures output == Hex(input)
    ensures |output| == 2 * |input|
  {
    output := [];
    var i := 0;
    while i < |input|
      invariant 0 <= i <= |input|
      invariant output == Hex(input[..i])
      invariant |output| == 2 * i
    {
      var c := input[i];
      output := output + [HexDigits[c / 16]];
      output := output + [HexDigits[c % 16]];
      assert input[..i + 1][..i] == input[..i];
      i := i + 1;
    }
    assert input[..i] == input;
  }

  lemma {:induction false} HexLength(input: seq<byte>)
    ensures |Hex(input)| == 2 * |input|
  {
    if input != [] {
      HexLength(input[..|input| - 1]);
    }
  }

  /** Characters 2i and 2i+1 are the high and the low nibble of byte i. */
  lemma {:induction false} HexAt(input: seq<byte>, i: nat)
    requires i < |input|
    ensures |Hex(input)| == 2 * |input|
    ensures Hex(input)[2 * i] == HexDigits[input[i] / 16]
    ensures Hex(input)[2 * i + 1] == HexDigits[input[i] % 16]
  {
    var n := |input|;
    var init := input[..n - 1];
    HexLength(init);
    HexLength(input);
    if i < n - 1 {
      HexAt(init, i);
    }
  }

  /** Every output character is drawn from the upper-case alphabet. */
  lemma HexAlphabet(input: seq<byte>)
    ensures forall k :: 0 <= k < |Hex(input)| ==> Hex(input)[k] in HexDigits
  {
    HexLength(input);
    forall k | 0 <= k < |Hex(input)|
      ensures Hex(input)[k] in HexDigits
    {
      HexAt(input, k / 2);
      assert k == 2 * (k / 2) || k == 2 * (k / 2) + 1;
    }
  }

  lemma HexDigitsAreDigits(s: string)
    requires forall k :: 0 <= k < |s| ==> s[k] in HexDigits
    ensures forall k :: 0 <= k < |s| ==> IsHexDigit(s[k])
  {
    forall k | 0 <= k < |s|
      ensures IsHexDigit(s[k])
    {
      var v :| 0 <= v < |HexDigits| && HexDigits[v] == s[k];
      DigitValueOf(v);
    }
  }

  /** One byte survives encoding as a pair and decoding the pair. */
  lemma BytePairRoundTrip(c: byte)
    ensures 16 * DigitValue(HexDigits[c / 16]) + DigitValue(HexDigits[c % 16]) == c
  {
    DigitValueOf(c / 16);
    DigitValueOf(c % 16);
  }

  /** One pair of digits survives decoding and encoding the byte `b` it gives. */
  lemma DigitPairRoundTrip(c1: char, c2: char, b: int)
    requires IsHexDigit(c1) && IsHexDigit(c2)
    requires b == 16 * DigitValue(c1) + DigitValue(c2)
    ensures 0 <= b < 256
    ensures HexDigits[b / 16] == c1 && HexDigits[b % 16] == c2
  {
    var hi, lo := DigitValue(c1), DigitValue(c2);
    assert b / 16 == hi && b % 16 == lo;
  }

  lemma HexIsHexString(input: seq<byte>)
    ensures IsHexString(Hex(input))
  {
    HexLength(input);
    HexAlphabet(input);
    HexDigitsAreDigits(Hex(input));
  }

  /** Byte i of the decoding is rebuilt from digits 2i and 2i+1. */
  lemma {:induction false} UnhexAt(s: string, i: nat)
    requires |s| % 2 == 0 && i < |s| / 2
    ensures |Unhex(s)| == |s| / 2
    ensures Unhex(s)[i] == 16 * DigitValue(s[2 * i]) + DigitValue(s[2 * i + 1])
  {
    var n := |s|;
    var init := s[..n - 2];
    if i < n / 2 - 1 {
      UnhexAt(init, i);
    } else if n > 2 {
      UnhexAt(init, 0);
    }
  }

  /** Decoding the pairs gives back the input. */
  lemma UnhexHex(input: seq<byte>)
    ensures |Hex(input)| % 2 == 0
    ensures Unhex(Hex(input)) == input
  {
    var h := Hex(input);
    HexLength(input);
    if input != [] {
      UnhexAt(h, 0);
    }
    forall i | 0 <= i < |input|
      ensures Unhex(h)[i] == input[i]
    {
      UnhexAt(h, i);
      HexAt(input, i);
      BytePairRoundTrip(input[i]);
    }
  }

  /** Two strings of even length that agree pair by pair are equal. */
  lemma PairwiseEqual(a: string, b: string)
    requires |a| == |b| && |a| % 2 == 0
    requires forall i :: 0 <= i < |a| / 2 ==> a[2 * i] == b[2 * i] && a[2 * i + 1] == b[2 * i + 1]
    ensures a == b
  {
    forall k | 0 <= k < |a|
      ensures a[k] == b[k]
    {
      var i := k / 2;
      assert k == 2 * i || k == 2 * i + 1;
    }
  }

  /** Encoding a well-formed digit string after decoding it is the identity. */
  lemma HexUnhex(s: string)
    requires IsHexString(s)
    ensures Hex(Unhex(s)) == s
  {
    var u := Unhex(s);
    if s != [] {
      UnhexAt(s, 0);
    }
    HexLength(u);
    forall i | 0 <= i < |s| / 2
      ensures Hex(u)[2 * i] == s[2 * i] && Hex(u)[2 * i + 1] == s[2 * i + 1]
    {
      var c1, c2 := s[2 * i], s[2 * i + 1];
      UnhexAt(s, i);
      HexAt(u, i);
      DigitPairRoundTrip(c1, c2, u[i]);
    }
    PairwiseEqual(Hex(u), s);
  }

  /** Distinct inputs have distinct encodings. */
  lemma HexInjective(a: seq<byte>, b: seq<byte>)
    requires Hex(a) == Hex(b)
    ensures a == b
  {
    UnhexHex(a);
    UnhexHex(b);
  }

  /** Name of the cached object file for a module whose IR hashes to `hash`;
      empty when no cache directory is configured. */
  function CachedFilename(cachePath: string, hash: seq<byte>): (name: string)
    ensures cachePath == [] ==> name == []
    ensures cachePath != [] ==>
      |name| == |cachePath| + 2 * |hash| + 3 &&
      name[..|cachePath| + 1] == cachePath + "/" &&
      name[|name| - 2..] == ".o" &&
      name[|cachePath| + 1..|name| - 2] == Hex(hash) &&
      Unhex(name[|cachePath| + 1..|name| - 2]) == hash
  {
    HexLength(hash);
    UnhexHex(hash);
    if cachePath == [] then [] else cachePath + "/" + Hex(hash) + ".o"
  }

  /** A module buffer: its identifier and its contents. */
  datatype MemoryBufferRef = MemoryBufferRef(identifier: string, contents: seq<byte>)

  /** Adds every module to `moduleMap` under its own buffer identifier. The
      identifiers must be unique and not yet present. */
  method GenerateModuleMap(modules: seq<MemoryBufferRef>, moduleMap: map<string, MemoryBufferRef>)
    returns (result: map<string, MemoryBufferRef>)
    requires forall i, j :: 0 <= i < j < |modules| ==> modules[i].identifier != modules[j].identifier
    requires forall i :: 0 <= i < |modules| ==> modules[i].identifier !in moduleMap
    ensures forall i :: 0 <= i < |modules| ==>
      modules[i].identifier in result && result[modules[i].identifier] == modules[i]
    ensures forall id :: id in moduleMap ==> id in result && result[id] == moduleMap[id]
    ensures forall id :: id in result ==>
      id in moduleMap || exists i :: 0 <= i < |modules| && modules[i].identifier == id
  {
    result := moduleMap;
    var i := 0;
    while i < |modules|
      invariant 0 <= i <= |modules|
      invariant forall k :: 0 <= k < i ==>
        modules[k].identifier in result && result[modules[k].identifier] == modules[k]
      invariant forall k :: i <= k < |modules| ==> modules[k].identifier !in result
      invariant forall id :: id in moduleMap ==> id in result && result[id] == moduleMap[id]
      invariant forall id :: id in result ==>
        id in moduleMap || exists k :: 0 <= k < i && modules[k].identifier == id
    {
      var m := modules[i];
      assert m.identifier !in result;
      result := result[m.identifier := m];
      i := i + 1;
    }
  }

  datatype Arch = X86_64 | X86 | AArch64 | OtherArch

  /** The parts of a target triple that the default-CPU choice reads. */
  datatype Triple = Triple(arch: Arch, isOSDarwin: bool, text: string)

  /** The CPU a Darwin triple defaults to, if its architecture has one. */
  function DarwinDefaultCpu(arch: Arch): (cpu: string)
    ensures cpu == [] <==> arch == OtherArch
  {
    match arch
    case X86_64 => "core2"
    case X86 => "yonah"
    case AArch64 => "cyclone"
    case OtherArch => ""
  }

  /** The fields of the target-machine builder set up from a triple. */
  class TargetMachineBuilder {
    var theTriple: Triple
    var mCpu: string

    constructor (cpu: string, triple: Triple)
      ensures mCpu == cpu && theTriple == triple
    {
      mCpu := cpu;
      theTriple := triple;
    }
  }

  /** Stores the triple; an empty CPU on Darwin takes the architecture's
      default, any other CPU is left as it is. */
  method InitTMBuilder(builder: TargetMachineBuilder, triple: Triple)
    modifies builder
    ensures builder.theTriple == triple
    ensures old(builder.mCpu) == [] && triple.isOSDarwin ==>
      builder.mCpu == DarwinDefaultCpu(triple.arch)
    ensures !(old(builder.mCpu) == [] && triple.isOSDarwin) ==>
      builder.mCpu == old(builder.mCpu)
  {
    if builder.mCpu == [] && triple.isOSDarwin {
      if triple.arch == X86_64 {
        builder.mCpu := "core2";
      } else if triple.arch == X86 {
        builder.mCpu := "yonah";
      } else if triple.arch == AArch64 {
        builder.mCpu := "cyclone";
      }
    }
    builder.theTriple := triple;
  }
}
