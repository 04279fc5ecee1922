/** UTF-8 as RFC 3629 section 3 defines it, the strict validator of the compiler's input, and the
    second, independent decoder behind the string intrinsics. Bytes and code points are bit
    vectors, so that the masks and shifts are the program's own. */
module Utf8 {
  import opened Wrappers

  type byte = bv8
  type CodePoint = bv32

  predicate Scalar(cp: CodePoint) {
    cp <= 0x10FFFF && !(0xD800 <= cp && cp <= 0xDFFF)
  }

  /** The scalar values: everything UTF-8 can and may encode. */
  predicate Scalars(cps: seq<CodePoint>) {
    forall k :: 0 <= k < |cps| ==> Scalar(cps[k])
  }

  function Tail(bits: bv32): byte {
    0x80 | ((bits & 0x3F) as bv8)
  }

  /** The byte sequence of a scalar value (RFC 3629 section 3). */
  function Encode(cp: CodePoint): (bs: seq<byte>)
    requires Scalar(cp)
    ensures 1 <= |bs| <= 4
  {
    if cp < 0x80 then [cp as bv8]
    else if cp < 0x800 then [0xC0 | ((cp >> 6) as bv8), Tail(cp)]
    else if cp < 0x10000 then [0xE0 | ((cp >> 12) as bv8), Tail(cp >> 6), Tail(cp)]
    else [0xF0 | ((cp >> 18) as bv8), Tail(cp >> 12), Tail(cp >> 6), Tail(cp)]
  }

  function EncodeAll(cps: seq<CodePoint>): seq<byte>
    requires Scalars(cps)
  {
    if cps == [] then [] else Encode(cps[0]) + EncodeAll(cps[1..])
  }

  /** The ranges of RFC 3629 section 3, and its number of octets for each. */
  lemma RangesAndLengths(cp: CodePoint)
    ensures Scalar(cp) <==> cp <= 0xD7FF || (0xE000 <= cp && cp <= 0x10FFFF)
    ensures Scalar(cp) ==>
              |Encode(cp)| == if cp <= 0x7F then 1 else if cp <= 0x7FF then 2 else if cp <= 0xFFFF then 3 else 4
  {
  }

  /** The examples of RFC 3629 section 7. */
  lemma KnownEncodings()
    ensures Encode(0x0041) == [0x41] && Encode(0x0391) == [0xCE, 0x91] && Encode(0x2262) == [0xE2, 0x89, 0xA2]
    ensures Encode(0xD55C) == [0xED, 0x95, 0x9C] && Encode(0x65E5) == [0xE6, 0x97, 0xA5]
    ensures Encode(0x233B4) == [0xF0, 0xA3, 0x8E, 0xB4]
  {
  }

  // ---------------------------------------------------------------- what the decoders compute

  predicate IsCont(b: byte) {
    b & 0xC0 == 0x80
  }

  function Width(lead: byte): (n: nat)
    ensures n <= 4
  {
    if lead < 0x80 then 1
    else if lead & 0xE0 == 0xC0 then 2
    else if lead & 0xF0 == 0xE0 then 3
    else if lead & 0xF8 == 0xF0 then 4
    else 0
  }

  function LeadBits(lead: byte, n: nat): bv32 {
    if n == 2 then (lead & 0x1F) as bv32
    else if n == 3 then (lead & 0x0F) as bv32
    else if n == 4 then (lead & 0x07) as bv32
    else lead as bv32
  }

  function Shift(cp: bv32, b: byte): bv32 {
    (cp << 6) | ((b & 0x3F) as bv32)
  }

  function Gather(cp: bv32, tail: seq<byte>): bv32
    decreases |tail|
  {
    if tail == [] then cp else Gather(Shift(cp, tail[0]), tail[1..])
  }

  function Floor(n: nat): bv32 {
    if n == 2 then 0x80 else if n == 3 then 0x800 else if n == 4 then 0x10000 else 0
  }

  predicate Continued(bs: seq<byte>, n: nat)
    requires n <= |bs|
  {
    forall k :: 1 <= k < n ==> IsCont(bs[k])
  }

  /** Shortest form, below the ceiling, and no surrogate. */
  predicate InRange(cp: bv32, n: nat) {
    !(cp < Floor(n) || cp > 0x10FFFF || (cp >= 0xD800 && cp <= 0xDFFF))
  }

  datatype Found = Found(cp: CodePoint, width: nat)

  /** The scalar value at the front of the bytes, with its width, if a well-formed one is there. */
  function Decode(bs: seq<byte>): (r: Option<Found>)
    ensures r.Some? ==> 1 <= r.value.width <= |bs|
  {
    if bs == [] || Width(bs[0]) == 0 || Width(bs[0]) > |bs| || !Continued(bs, Width(bs[0])) then None
    else
      var n := Width(bs[0]);
      var cp := Gather(LeadBits(bs[0], n), bs[1..n]);
      if InRange(cp, n) then Some(Found(cp, n)) else None
  }

  /** The scalars read from the front, and how many bytes they took. */
  function Scan(bs: seq<byte>): (seq<CodePoint>, nat)
    decreases |bs|
  {
    match Decode(bs)
    case None => ([], 0)
    case Some(f) =>
      var rest := Scan(bs[f.width..]);
      ([f.cp] + rest.0, f.width + rest.1)
  }

  // ---------------------------------------------------------------- one code point

  lemma GatherUnrolls(cp: bv32, b: byte, c: byte, d: byte)
    ensures Gather(cp, []) == cp
    ensures Gather(cp, [b]) == Shift(cp, b)
    ensures Gather(cp, [b, c]) == Shift(Shift(cp, b), c)
    ensures Gather(cp, [b, c, d]) == Shift(Shift(Shift(cp, b), c), d)
  {
    hide Shift;
    GatherOne(cp, b);
    GatherOne(Shift(cp, b), c);
    GatherOne(Shift(Shift(cp, b), c), d);
    assert [b, c][1..] == [c] && [b, c, d][1..] == [c, d] && [c, d][1..] == [d];
    assert Gather(cp, [b, c]) == Gather(Shift(cp, b), [c]);
    assert Gather(cp, [b, c, d]) == Gather(Shift(cp, b), [c, d]);
    assert Gather(Shift(cp, b), [c, d]) == Gather(Shift(Shift(cp, b), c), [d]);
  }

  lemma GatherOne(cp: bv32, b: byte)
    ensures Gather(cp, [b]) == Shift(cp, b)
  {
    assert [b][1..] == [];
  }

  /** What is decoded is a scalar value whose encoding is exactly the bytes it came from. */
  lemma DecodedIsEncoded(bs: seq<byte>)
    requires Decode(bs).Some?
    ensures var f := Decode(bs).value; Scalar(f.cp) && Encode(f.cp) == bs[..f.width]
  {
    var n := Width(bs[0]);
    DecodedFront(bs);
    hide Width, LeadBits, Shift, IsCont, Encode, Scalar, InRange, Gather, Decode;
    if n == 1 {
      One(bs[0]);
    } else if n == 2 {
      Two(bs[0], bs[1]);
    } else if n == 3 {
      Three(bs[0], bs[1], bs[2]);
    } else {
      Four(bs[0], bs[1], bs[2], bs[3]);
    }
  }

  /** The decoder's answer, spelled out byte by byte. */
  lemma DecodedFront(bs: seq<byte>)
    requires Decode(bs).Some?
    ensures var f, n := Decode(bs).value, Width(bs[0]);
            && f.width == n && 1 <= n <= |bs| && InRange(f.cp, n)
            && (n == 1 ==> f.cp == LeadBits(bs[0], 1) && bs[..n] == [bs[0]])
            && (n > 1 ==> IsCont(bs[1])) && (n > 2 ==> IsCont(bs[2])) && (n > 3 ==> IsCont(bs[3]))
            && (n == 2 ==> f.cp == Shift(LeadBits(bs[0], 2), bs[1]) && bs[..n] == [bs[0], bs[1]])
            && (n == 3 ==> f.cp == Shift(Shift(LeadBits(bs[0], 3), bs[1]), bs[2]) && bs[..n] == [bs[0], bs[1], bs[2]])
            && (n == 4 ==> f.cp == Shift(Shift(Shift(LeadBits(bs[0], 4), bs[1]), bs[2]), bs[3])
                           && bs[..n] == [bs[0], bs[1], bs[2], bs[3]])
  {
    hide Width, LeadBits, Shift, IsCont, InRange, Gather;
    var n := Width(bs[0]);
    var c, d := if n > 2 then bs[2] else 0, if n > 3 then bs[3] else 0;
    GatherUnrolls(LeadBits(bs[0], n), if n > 1 then bs[1] else 0, c, d);
    if n == 1 {
      assert bs[1..1] == [] && bs[..1] == [bs[0]];
    } else if n == 2 {
      assert bs[1..2] == [bs[1]] && bs[..2] == [bs[0], bs[1]];
    } else if n == 3 {
      assert bs[1..3] == [bs[1], bs[2]] && bs[..3] == [bs[0], bs[1], bs[2]];
    } else {
      assert bs[1..4] == [bs[1], bs[2], bs[3]] && bs[..4] == [bs[0], bs[1], bs[2], bs[3]];
    }
  }

  lemma One(a: byte)
    requires Width(a) == 1
    ensures var cp := LeadBits(a, 1); cp < 0x80 && Scalar(cp) && Encode(cp) == [a]
  {
  }

  lemma Two(a: byte, b: byte)
    requires Width(a) == 2 && IsCont(b)
    ensures var cp := Shift(LeadBits(a, 2), b);
            cp < 0x800 && (InRange(cp, 2) ==> Scalar(cp) && Encode(cp) == [a, b])
  {
  }

  lemma Three(a: byte, b: byte, c: byte)
    requires Width(a) == 3 && IsCont(b) && IsCont(c)
    ensures var cp := Shift(Shift(LeadBits(a, 3), b), c);
            cp < 0x10000 && (InRange(cp, 3) ==> Scalar(cp) && Encode(cp) == [a, b, c])
  {
  }

  lemma Four(a: byte, b: byte, c: byte, d: byte)
    requires Width(a) == 4 && IsCont(b) && IsCont(c) && IsCont(d)
    ensures var cp := Shift(Shift(Shift(LeadBits(a, 4), b), c), d);
            InRange(cp, 4) ==> Scalar(cp) && Encode(cp) == [a, b, c, d]
  {
  }

  /** Every scalar value decodes back from its encoding, whatever follows. */
  lemma EncodedIsDecoded(cp: CodePoint, more: seq<byte>)
    requires Scalar(cp)
    ensures Decode(Encode(cp) + more) == Some(Found(cp, |Encode(cp)|))
  {
    var code := Encode(cp);
    var bs, n := code + more, |code|;
    EncodeShape(cp);
    hide Width, LeadBits, Shift, IsCont, Encode, Gather, InRange;
    assert bs[..n] == code && bs[1..n] == code[1..] && bs[0] == code[0];
    assert forall k :: 1 <= k < n ==> bs[k] == code[k];
  }

  /** The encoding of a scalar value passes every test of the decoders and gathers to the value. */
  lemma EncodeShape(cp: CodePoint)
    requires Scalar(cp)
    ensures var code := Encode(cp);
            && Width(code[0]) == |code| && Continued(code, |code|) && InRange(cp, |code|)
            && Gather(LeadBits(code[0], |code|), code[1..]) == cp
  {
    if cp < 0x80 {
      Shape1(cp);
    } else if cp < 0x800 {
      Shape2(cp);
    } else if cp < 0x10000 {
      Shape3(cp);
    } else {
      Shape4(cp);
    }
    var code := Encode(cp);
    var n := |code|;
    hide Width, LeadBits, Shift, IsCont, Gather, Tail, Encode, InRange, Scalar;
    var c, d := if n > 2 then code[2] else 0, if n > 3 then code[3] else 0;
    GatherUnrolls(LeadBits(code[0], n), if n > 1 then code[1] else 0, c, d);
    if n == 1 {
      assert code[1..] == [];
    } else if n == 2 {
      assert code[1..] == [code[1]];
    } else if n == 3 {
      assert code[1..] == [code[1], code[2]];
    } else {
      assert code[1..] == [code[1], code[2], code[3]];
    }
  }

  lemma Shape1(cp: CodePoint)
    requires cp < 0x80
    ensures Encode(cp) == [cp as bv8] && InRange(cp, 1) && Width(cp as bv8) == 1 && LeadBits(cp as bv8, 1) == cp
  {
  }

  lemma Shape2(cp: CodePoint)
    requires 0x80 <= cp < 0x800
    ensures var a, b := 0xC0 | ((cp >> 6) as bv8), Tail(cp);
            Encode(cp) == [a, b] && InRange(cp, 2) && Width(a) == 2 && IsCont(b) && Shift(LeadBits(a, 2), b) == cp
  {
  }

  lemma Shape3(cp: CodePoint)
    requires 0x800 <= cp < 0x10000 && Scalar(cp)
    ensures var a, b, c := 0xE0 | ((cp >> 12) as bv8), Tail(cp >> 6), Tail(cp);
            && Encode(cp) == [a, b, c] && InRange(cp, 3) && Width(a) == 3 && IsCont(b) && IsCont(c)
            && Shift(Shift(LeadBits(a, 3), b), c) == cp
  {
  }

  lemma Shape4(cp: CodePoint)
    requires 0x10000 <= cp <= 0x10FFFF
    ensures var a, b, c, d := 0xF0 | ((cp >> 18) as bv8), Tail(cp >> 12), Tail(cp >> 6), Tail(cp);
            && Encode(cp) == [a, b, c, d] && InRange(cp, 4) && Width(a) == 4 && IsCont(b) && IsCont(c) && IsCont(d)
            && Shift(Shift(Shift(LeadBits(a, 4), b), c), d) == cp
  {
  }

  // ---------------------------------------------------------------- whole texts

  /** No scalar value's encoding is at the front of the bytes. */
  ghost predicate Stuck(bs: seq<byte>) {
    forall cp :: Scalar(cp) ==> !(Encode(cp) <= bs)
  }

  lemma StuckMeansNoDecode(bs: seq<byte>)
    ensures Decode(bs) == None <==> Stuck(bs)
  {
    if Decode(bs).Some? {
      DecodedIsEncoded(bs);
    }
    hide Encode, Scalar, Decode;
    forall cp | Scalar(cp) && Encode(cp) <= bs
      ensures Decode(bs).Some?
    {
      EncodedIsDecoded(cp, bs[|Encode(cp)|..]);
      assert bs == Encode(cp) + bs[|Encode(cp)|..];
    }
  }

  /** The bytes up to `at` are exactly `cps` encoded, and there the text ends or no scalar follows. */
  ghost predicate ReadsAs(bs: seq<byte>, cps: seq<CodePoint>, at: nat) {
    at <= |bs| && Scalars(cps) && EncodeAll(cps) == bs[..at] && (at == |bs| || Stuck(bs[at..]))
  }

  /** The scan reads the text as scalars, as far as that is possible. */
  lemma {:induction false} ScanReads(bs: seq<byte>)
    ensures ReadsAs(bs, Scan(bs).0, Scan(bs).1)
    decreases |bs|
  {
    hide Encode, Scalar, Decode;
    StuckMeansNoDecode(bs);
    match Decode(bs)
    case None =>
      assert bs[0..] == bs && bs[..0] == [];
    case Some(f) =>
      DecodedIsEncoded(bs);
      var rest := bs[f.width..];
      ScanReads(rest);
      var (cps, at) := Scan(rest);
      var all := [f.cp] + cps;
      assert Scan(bs) == (all, f.width + at);
      assert all[1..] == cps && all[0] == f.cp;
      assert Scalars(all);
      assert EncodeAll(all) == Encode(f.cp) + EncodeAll(cps);
      assert bs[..f.width + at] == bs[..f.width] + rest[..at];
      assert bs[f.width + at..] == rest[at..];
  }

  /** There is only one way to read a text: the scan's. */
  lemma {:induction false} ReadingIsUnique(bs: seq<byte>, cps: seq<CodePoint>, at: nat)
    requires ReadsAs(bs, cps, at)
    ensures Scan(bs) == (cps, at)
    decreases |cps|
  {
    hide Encode, Scalar, Decode, Stuck;
    StuckMeansNoDecode(bs);
    if cps == [] {
      assert at == 0;
      assert bs[0..] == bs;
      if bs == [] {
        NothingStuck();
      }
    } else {
      var n := |Encode(cps[0])|;
      assert bs[..at][..n] == Encode(cps[0]);
      assert bs == Encode(cps[0]) + bs[n..];
      EncodedIsDecoded(cps[0], bs[n..]);
      assert bs[n..][..at - n] == EncodeAll(cps[1..]);
      assert bs[n..][at - n..] == bs[at..];
      ReadingIsUnique(bs[n..], cps[1..], at - n);
      assert [cps[0]] + cps[1..] == cps;
    }
  }

  lemma NothingStuck()
    ensures Decode([]) == None
  {
  }

  /** Texts are valid exactly when the scan reaches the end, and then it reads what was encoded. */
  lemma ValidMeansEncoded(bs: seq<byte>)
    ensures Scan(bs).1 == |bs| <==> exists cps :: Scalars(cps) && EncodeAll(cps) == bs
  {
    ScanReads(bs);
    assert bs[..|bs|] == bs;
    forall cps | Scalars(cps) && EncodeAll(cps) == bs
      ensures Scan(bs).1 == |bs|
    {
      ReadingIsUnique(bs, cps, |bs|);
    }
  }

  // ---------------------------------------------------------------- the validator

  method SequenceLength(lead: byte) returns (n: nat)
    ensures n == Width(lead)
  {
    if lead < 0x80 {
      return 1;
    }
    if lead & 0xE0 == 0xC0 {
      return 2;
    }
    if lead & 0xF0 == 0xE0 {
      return 3;
    }
    if lead & 0xF8 == 0xF0 {
      return 4;
    }
    return 0;
  }

  method DecodeCodePoint(bs: seq<byte>, at: nat, n: nat) returns (cp: CodePoint)
    requires 1 <= n && at + n <= |bs|
    ensures cp == Gather(LeadBits(bs[at], n), bs[at + 1..at + n])
  {
    hide Shift;
    cp := match n case 2 => (bs[at] & 0x1F) as bv32 case 3 => (bs[at] & 0x0F) as bv32
          case 4 => (bs[at] & 0x07) as bv32 case _ => bs[at] as bv32;
    for k := 1 to n
      invariant Gather(cp, bs[at + k..at + n]) == Gather(LeadBits(bs[at], n), bs[at + 1..at + n])
    {
      assert bs[at + k..at + n][1..] == bs[at + k + 1..at + n];
      cp := ShiftIn(cp, bs[at + k]);
    }
  }

  function ShiftIn(cp: CodePoint, b: byte): (r: CodePoint)
    ensures r == Shift(cp, b)
  {
    (cp << 6) | ((b & 0x3F) as bv32)
  }

  predicate AllCont(bs: seq<byte>, from: nat, to: nat)
    requires to <= |bs|
  {
    forall k :: from <= k < to ==> IsCont(bs[k])
  }

  /** The decoder's tests on the bytes from `i` on. */
  lemma DecodeAt(bs: seq<byte>, i: nat)
    requires i < |bs|
    ensures var n := Width(bs[i]);
            && (n == 0 || i + n > |bs| ==> Decode(bs[i..]) == None)
            && (n > 0 && i + n <= |bs| ==>
                  Decode(bs[i..]) == var cp := Gather(LeadBits(bs[i], n), bs[i + 1..i + n]);
                                     if AllCont(bs, i + 1, i + n) && InRange(cp, n) then Some(Found(cp, n)) else None)
  {
    hide Width, IsCont, Gather, LeadBits, InRange;
    var rest := bs[i..];
    var n := Width(bs[i]);
    assert rest[0] == bs[i];
    if n > 0 && i + n <= |bs| {
      assert rest[1..n] == bs[i + 1..i + n];
      assert Continued(rest, n) <==> AllCont(bs, i + 1, i + n) by {
        assert forall k :: i + 1 <= k < i + n ==> bs[k] == rest[k - i];
        assert forall k :: 1 <= k < n ==> rest[k] == bs[i + k];
      }
    }
  }

  /** The offset of the first byte that breaks well-formedness, the length when none does. */
  method Utf8FirstInvalid(bs: seq<byte>) returns (at: nat)
    ensures at == Scan(bs).1
  {
    hide Width, IsCont, Gather, LeadBits, Shift, Decode, InRange, Scan;
    at := 0;
    assert bs[0..] == bs;
    while at < |bs|
      invariant at <= |bs| && Scan(bs).1 == at + Scan(bs[at..]).1
    {
      DecodeAt(bs, at);
      ScanStep(bs, at);
      var n := SequenceLength(bs[at]);
      if n == 0 {
        return at;
      }
      if at + n > |bs| {
        return at;
      }
      for k := 1 to n
        invariant AllCont(bs, at + 1, at + k)
      {
        if !IsCont(bs[at + k]) {
          return at;
        }
      }
      var cp := DecodeCodePoint(bs, at, n);
      if !InRange(cp, n) {
        return at;
      }
      at := at + n;
    }
    assert bs[at..] == [];
    ScanNothing();
  }

  lemma ScanNothing()
    ensures Scan([]).1 == 0
  {
  }

  lemma ScanStep(bs: seq<byte>, at: nat)
    requires at < |bs|
    ensures match Decode(bs[at..])
            case None => Scan(bs[at..]).1 == 0
            case Some(f) => at + f.width <= |bs| && Scan(bs[at..]).1 == f.width + Scan(bs[at + f.width..]).1
  {
    var found := Decode(bs[at..]);
    if found.Some? {
      assert bs[at..][found.value.width..] == bs[at + found.value.width..];
    }
  }

  // ---------------------------------------------------------------- the string intrinsics

  /** The second decoder's lead byte: how many continuation bytes follow, and its own bits. */
  method ClassifyLead(lead: byte) returns (r: Option<Found>)
    ensures r == if Width(lead) == 0 then None else Some(Found(LeadBits(lead, Width(lead)), Width(lead) - 1))
  {
    if lead < 0x80 {
      return Some(Found(lead as bv32, 0));
    } else if lead & 0xE0 == 0xC0 {
      return Some(Found((lead & 0x1F) as bv32, 1));
    } else if lead & 0xF0 == 0xE0 {
      return Some(Found((lead & 0x0F) as bv32, 2));
    } else if lead & 0xF8 == 0xF0 {
      return Some(Found((lead & 0x07) as bv32, 3));
    }
    return None;
  }

  /** The second decoder: the same tests interleaved with the gathering. */
  method DecodeCodePointAt(s: seq<byte>, i: nat) returns (r: Option<Found>)
    requires i < |s|
    ensures r == Decode(s[i..])
  {
    hide Width, IsCont, LeadBits, Shift, Decode, Gather, InRange;
    DecodeAt(s, i);
    var lead := ClassifyLead(s[i]);
    if lead == None {
      return None;
    }
    var n, cp := lead.value.width, lead.value.cp;
    ghost var whole := if i + n + 1 <= |s| then Gather(cp, s[i + 1..i + n + 1]) else 0;
    for k := 1 to n + 1
      invariant i + k <= |s| && AllCont(s, i + 1, i + k)
      invariant i + n + 1 <= |s| ==> whole == Gather(cp, s[i + k..i + n + 1])
    {
      if !(i + k < |s| && IsCont(s[i + k])) {
        return None;
      }
      if i + n + 1 <= |s| {
        GatherStep(cp, s, i + k, i + n + 1);
      }
      cp := ShiftIn(cp, s[i + k]);
    }
    GatherNone(cp, s, i + n + 1);
    if !InRange(cp, n + 1) {
      return None;
    }
    return Some(Found(cp, n + 1));
  }

  lemma GatherStep(cp: CodePoint, s: seq<byte>, from: nat, to: nat)
    requires from < to <= |s|
    ensures Gather(cp, s[from..to]) == Gather(Shift(cp, s[from]), s[from + 1..to])
  {
    hide Shift;
    assert s[from..to][1..] == s[from + 1..to];
  }

  lemma GatherNone(cp: CodePoint, s: seq<byte>, at: nat)
    requires at <= |s|
    ensures Gather(cp, s[at..at]) == cp
  {
  }

  /** charCount: how many scalar values the string encodes, or where it stops encoding them. It
      raises at exactly the validator's offset. */
  method CharCount(s: seq<byte>) returns (r: Result<nat, nat>)
    ensures r == if Scan(s).1 == |s| then Ok(|Scan(s).0|) else Err(Scan(s).1)
  {
    hide Decode;
    var count, i := 0, 0;
    assert s[0..] == s;
    while i < |s|
      invariant i <= |s| && Scan(s).1 == i + Scan(s[i..]).1 && |Scan(s).0| == count + |Scan(s[i..]).0|
    {
      var found := DecodeCodePointAt(s, i);
      if found == None {
        return Err(i);
      }
      assert s[i..][found.value.width..] == s[i + found.value.width..];
      count := count + 1;
      i := i + found.value.width;
    }
    assert s[i..] == [];
    NothingStuck();
    return Ok(count);
  }

  // ---------------------------------------------------------------- the input contract

  datatype Rejection = IsUtf16 | NotUtf8(line: nat)

  /** The 1-based line of an offset: line feeds strictly before it. */
  function LineOf(bs: seq<byte>): nat {
    if bs == [] then 1 else LineOf(bs[..|bs| - 1]) + if bs[|bs| - 1] == 0x0A then 1 else 0
  }

  /** Where the line feeds are. */
  ghost function Feeds(bs: seq<byte>): set<nat> {
    set i: nat | i < |bs| && bs[i] == 0x0A
  }

  lemma {:induction false} LineOfCountsFeeds(bs: seq<byte>)
    ensures LineOf(bs) == 1 + |Feeds(bs)|
  {
    if bs != [] {
      var n := |bs| - 1;
      LineOfCountsFeeds(bs[..n]);
      if bs[n] == 0x0A {
        assert Feeds(bs) == Feeds(bs[..n]) + {n};
      } else {
        assert Feeds(bs) == Feeds(bs[..n]);
      }
    }
  }

  method LineOfOffset(bs: seq<byte>, offset: nat) returns (line: nat)
    requires offset <= |bs|
    ensures line == LineOf(bs[..offset])
  {
    line := 1;
    for i := 0 to offset
      invariant line == LineOf(bs[..i])
    {
      assert bs[..i + 1][..i] == bs[..i];
      if bs[i] == 0x0A {
        line := line + 1;
      }
    }
  }

  const UTF8_BOM: seq<byte> := [0xEF, 0xBB, 0xBF]

  predicate MarkedUtf16(bs: seq<byte>) {
    |bs| >= 2 && (bs[..2] == [0xFF, 0xFE] || bs[..2] == [0xFE, 0xFF])
  }

  /** The bytes past one UTF-8 byte-order mark. */
  function TextOf(bs: seq<byte>): seq<byte> {
    if UTF8_BOM <= bs then bs[3..] else bs
  }

  /** The marks are U+FEFF: in UTF-8, and as a 16-bit unit in either byte order. */
  lemma MarksAreFeff(bs: seq<byte>)
    ensures UTF8_BOM == Encode(0xFEFF)
    ensures MarkedUtf16(bs) <==>
            |bs| >= 2 && (bs[0] as int + 256 * bs[1] as int == 0xFEFF || bs[1] as int + 256 * bs[0] as int == 0xFEFF)
  {
  }

  /** A source is accepted when, past one byte-order mark, it encodes scalar values; a UTF-16 mark
      is named, and any other failure is reported at the line of its first ill-formed byte. */
  method Utf8ContentCheck(bs: seq<byte>) returns (r: Result<seq<byte>, Rejection>)
    ensures r == Err(IsUtf16) <==> MarkedUtf16(bs)
    ensures r == Ok(TextOf(bs)) <==>
              !MarkedUtf16(bs) && exists cps :: Scalars(cps) && EncodeAll(cps) == TextOf(bs)
    ensures r.Ok? || r.error.IsUtf16?
            || (Scan(TextOf(bs)).1 < |TextOf(bs)| && r.error == NotUtf8(LineOf(TextOf(bs)[..Scan(TextOf(bs)).1])))
  {
    hide EncodeAll;
    if |bs| >= 2 && (bs[..2] == [0xFF, 0xFE] || bs[..2] == [0xFE, 0xFF]) {
      return Err(IsUtf16);
    }
    var text := bs;
    if |bs| >= 3 && bs[..3] == UTF8_BOM {
      text := bs[3..];
    }
    ScanReads(text);
    ValidMeansEncoded(text);
    var invalid := Utf8FirstInvalid(text);
    if invalid != |text| {
      var line := LineOfOffset(text, invalid);
      return Err(NotUtf8(line));
    }
    return Ok(text);
  }
}
