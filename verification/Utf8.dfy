/** UTF-8 validity (RFC 3629, sections 3 and 4). */
module Utf8 {
  import opened Errors

  type Byte = b: nat | b < 256

  // ---- The encoding ----

  /** A Unicode scalar value: no surrogate, nothing above 0x10FFFF. */
  predicate IsScalar(c: nat) { c <= 0x10FFFF && !(0xD800 <= c <= 0xDFFF) }

  /** The table of RFC 3629, section 3. */
  function EncodeScalar(c: nat): (bytes: seq<Byte>)
    requires IsScalar(c)
    ensures 1 <= |bytes| <= 4
  {
    if c < 0x80 then [c]
    else if c < 0x800 then [0xC0 + c / 64, 0x80 + c % 64]
    else if c < 0x10000 then [0xE0 + c / 64 / 64, 0x80 + c / 64 % 64, 0x80 + c % 64]
    else [0xF0 + c / 64 / 64 / 64, 0x80 + c / 64 / 64 % 64, 0x80 + c / 64 % 64, 0x80 + c % 64]
  }

  ghost predicate AllScalars(text: seq<nat>) { forall i :: 0 <= i < |text| ==> IsScalar(text[i]) }

  function Encode(text: seq<nat>): seq<Byte>
    requires AllScalars(text)
  {
    if text == [] then [] else EncodeScalar(text[0]) + Encode(text[1..])
  }

  // ---- The check, character by character ----

  predicate IsContinuation(b: Byte) { b / 64 == 2 }

  /** `count` continuation bytes from position `i`, six bits each. */
  function Continue(s: seq<Byte>, i: nat, count: nat, codePoint: nat): Option<nat>
    requires i + count <= |s|
    decreases count
  {
    if count == 0 then Some(codePoint)
    else if !IsContinuation(s[i]) then None
    else Continue(s, i + 1, count - 1, codePoint * 64 + s[i] % 64)
  }

  datatype Lead = Lead(bits: nat, count: nat, minimum: nat) | NotLead

  /** What the first byte of a longer sequence announces. */
  function LeadOf(first: Byte): Lead {
    if 0xC2 <= first <= 0xDF then Lead(first % 32, 1, 0x80)
    else if 0xE0 <= first <= 0xEF then Lead(first % 16, 2, 0x800)
    else if 0xF0 <= first <= 0xF4 then Lead(first % 8, 3, 0x10000)
    else NotLead
  }

  datatype First = First(codePoint: nat, length: nat) | NoCharacter

  /** One turn of the loop of `valid_utf8`. */
  function DecodeFirst(s: seq<Byte>): (r: First)
    requires s != []
    ensures r.First? ==> 1 <= r.length <= |s|
  {
    if s[0] <= 0x7F then First(s[0], 1) else DecodeLong(s, LeadOf(s[0]))
  }

  function DecodeLong(s: seq<Byte>, lead: Lead): (r: First)
    requires s != []
    ensures r.First? ==> 1 <= r.length <= |s|
  {
    if lead.NotLead? || lead.count > |s| - 1 then NoCharacter
    else
      var c := Continue(s, 1, lead.count, lead.bits);
      if c == None || c.value < lead.minimum || !IsScalar(c.value) then NoCharacter
      else First(c.value, lead.count + 1)
  }

  function Decode(s: seq<Byte>): Option<seq<nat>> {
    if s == [] then Some([])
    else match DecodeFirst(s)
      case NoCharacter => None
      case First(c, length) =>
        match Decode(s[length..])
        case None => None
        case Some(rest) => Some([c] + rest)
  }

  predicate ValidUtf8(s: seq<Byte>) { Decode(s).Some? }

  // ---- Both agree ----

  lemma ContinueOne(s: seq<Byte>, bits: nat)
    requires |s| >= 2
    ensures Continue(s, 1, 1, bits) == if IsContinuation(s[1]) then Some(bits * 64 + s[1] % 64) else None
  {
    assert Continue(s, 2, 0, bits * 64 + s[1] % 64) == Some(bits * 64 + s[1] % 64);
  }

  lemma ContinueTwo(s: seq<Byte>, bits: nat)
    requires |s| >= 3
    ensures Continue(s, 1, 2, bits) ==
      if IsContinuation(s[1]) && IsContinuation(s[2]) then Some((bits * 64 + s[1] % 64) * 64 + s[2] % 64) else None
  {
    var c := bits * 64 + s[1] % 64;
    assert Continue(s, 2, 1, c) == if IsContinuation(s[2]) then Continue(s, 3, 0, c * 64 + s[2] % 64) else None;
  }

  lemma ContinueThree(s: seq<Byte>, bits: nat)
    requires |s| >= 4
    ensures Continue(s, 1, 3, bits) ==
      if IsContinuation(s[1]) && IsContinuation(s[2]) && IsContinuation(s[3])
      then Some(((bits * 64 + s[1] % 64) * 64 + s[2] % 64) * 64 + s[3] % 64) else None
  {
    var c := bits * 64 + s[1] % 64;
    var d := c * 64 + s[2] % 64;
    assert Continue(s, 3, 1, d) == if IsContinuation(s[3]) then Continue(s, 4, 0, d * 64 + s[3] % 64) else None;
    assert Continue(s, 2, 2, c) == if IsContinuation(s[2]) then Continue(s, 3, 1, d) else None;
  }

  lemma SixBits(high: nat, low: nat)
    requires low < 64
    ensures (high * 64 + low) / 64 == high && (high * 64 + low) % 64 == low
  {}

  lemma DecodedTwo(s: seq<Byte>)
    requires |s| >= 2 && 0xC2 <= s[0] <= 0xDF && DecodeFirst(s).First?
    ensures var r := DecodeFirst(s); IsScalar(r.codePoint) && s[..r.length] == EncodeScalar(r.codePoint)
  {
    ContinueOne(s, s[0] % 32);
    hide Continue;
    SixBits(s[0] % 32, s[1] % 64);
  }

  lemma DecodedThree(s: seq<Byte>)
    requires |s| >= 3 && 0xE0 <= s[0] <= 0xEF && DecodeFirst(s).First?
    ensures var r := DecodeFirst(s); IsScalar(r.codePoint) && s[..r.length] == EncodeScalar(r.codePoint)
  {
    var lead: nat := s[0] % 16;
    var c: nat := lead * 64 + s[1] % 64;
    ContinueTwo(s, s[0] % 16);
    hide Continue;
    SixBits(s[0] % 16, s[1] % 64);
    SixBits(c, s[2] % 64);
    var code: nat := c * 64 + s[2] % 64;
    assert EncodeScalar(code) == [0xE0 + s[0] % 16, 0x80 + s[1] % 64, 0x80 + s[2] % 64];
  }

  lemma DecodedFour(s: seq<Byte>)
    requires |s| >= 4 && 0xF0 <= s[0] <= 0xF4 && DecodeFirst(s).First?
    ensures var r := DecodeFirst(s); IsScalar(r.codePoint) && s[..r.length] == EncodeScalar(r.codePoint)
  {
    var lead: nat := s[0] % 8;
    var c: nat := lead * 64 + s[1] % 64;
    var d: nat := c * 64 + s[2] % 64;
    ContinueThree(s, s[0] % 8);
    hide Continue;
    SixBits(s[0] % 8, s[1] % 64);
    SixBits(c, s[2] % 64);
    SixBits(d, s[3] % 64);
    var code: nat := d * 64 + s[3] % 64;
    assert EncodeScalar(code) == [0xF0 + s[0] % 8, 0x80 + s[1] % 64, 0x80 + s[2] % 64, 0x80 + s[3] % 64];
  }

  /** What is read is a scalar value, and its encoding is what was read. */
  lemma DecodedIsEncoded(s: seq<Byte>)
    requires s != [] && DecodeFirst(s).First?
    ensures var r := DecodeFirst(s); IsScalar(r.codePoint) && s[..r.length] == EncodeScalar(r.codePoint)
  {
    if s[0] <= 0x7F { return; }
    hide Continue;
    hide EncodeScalar;
    if s[0] <= 0xDF { DecodedTwo(s); }
    else if s[0] <= 0xEF { DecodedThree(s); }
    else { DecodedFour(s); }
  }

  lemma EncodedTwo(c: nat, s: seq<Byte>)
    requires 0x80 <= c < 0x800 && EncodeScalar(c) <= s
    ensures DecodeFirst(s) == First(c, 2)
  {
    assert s[0] == EncodeScalar(c)[0] && s[1] == EncodeScalar(c)[1];
    ContinueOne(s, s[0] % 32);
    hide Continue;
  }

  lemma EncodedThree(c: nat, s: seq<Byte>)
    requires 0x800 <= c < 0x10000 && IsScalar(c) && EncodeScalar(c) <= s
    ensures DecodeFirst(s) == First(c, 3)
  {
    var e := EncodeScalar(c);
    assert s[0] == e[0] && s[1] == e[1] && s[2] == e[2];
    hide EncodeScalar;
    ContinueTwo(s, s[0] % 16);
    hide Continue;
    assert s[0] % 16 == c / 64 / 64;
    var lead: nat := s[0] % 16;
    assert lead * 64 + s[1] % 64 == c / 64;
  }

  lemma EncodedFour(c: nat, s: seq<Byte>)
    requires 0x10000 <= c && IsScalar(c) && EncodeScalar(c) <= s
    ensures DecodeFirst(s) == First(c, 4)
  {
    var e := EncodeScalar(c);
    assert s[0] == e[0] && s[1] == e[1] && s[2] == e[2] && s[3] == e[3];
    hide EncodeScalar;
    ContinueThree(s, s[0] % 8);
    hide Continue;
    assert s[0] % 8 == c / 64 / 64 / 64;
    var lead: nat := s[0] % 8;
    var high: nat := lead * 64 + s[1] % 64;
    assert high == c / 64 / 64 && high * 64 + s[2] % 64 == c / 64;
  }

  /** An encoded scalar value is read back, whatever follows it. */
  lemma EncodedIsDecoded(c: nat, rest: seq<Byte>)
    requires IsScalar(c)
    ensures DecodeFirst(EncodeScalar(c) + rest) == First(c, |EncodeScalar(c)|)
  {
    var s := EncodeScalar(c) + rest;
    if c < 0x80 { return; }
    hide Continue;
    if c < 0x800 { EncodedTwo(c, s); }
    else if c < 0x10000 { EncodedThree(c, s); }
    else { EncodedFour(c, s); }
  }

  /** The check accepts exactly the encodings of sequences of scalar values, and the
      sequence is the decoded one. */
  lemma DecodeIsInverse(s: seq<Byte>, text: seq<nat>)
    ensures Decode(s) == Some(text) <==> AllScalars(text) && Encode(text) == s
  {
    if Decode(s) == Some(text) { DecodedEncodes(s, text); }
    if AllScalars(text) && Encode(text) == s { EncodedDecodes(text); }
  }

  lemma {:induction false} DecodedEncodes(s: seq<Byte>, text: seq<nat>)
    requires Decode(s) == Some(text)
    ensures AllScalars(text) && Encode(text) == s
    decreases |s|
  {
    hide DecodeFirst;
    if s != [] {
      DecodedIsEncoded(s);
      var r := DecodeFirst(s);
      assert text[1..] == Decode(s[r.length..]).value;
      DecodedEncodes(s[r.length..], text[1..]);
      assert s == s[..r.length] + s[r.length..];
    }
  }

  lemma {:induction false} EncodedDecodes(text: seq<nat>)
    requires AllScalars(text)
    ensures Decode(Encode(text)) == Some(text)
    decreases |text|
  {
    hide DecodeFirst;
    hide EncodeScalar;
    if text != [] {
      var head, rest := EncodeScalar(text[0]), Encode(text[1..]);
      EncodedIsDecoded(text[0], rest);
      EncodedDecodes(text[1..]);
      assert (head + rest)[|head|..] == rest;
      assert [text[0]] + text[1..] == text;
    }
  }

  lemma ValidExactlyEncodings(s: seq<Byte>)
    ensures ValidUtf8(s) <==> exists text :: AllScalars(text) && Encode(text) == s
  {
    if ValidUtf8(s) { DecodedEncodes(s, Decode(s).value); }
    forall text | AllScalars(text) && Encode(text) == s ensures ValidUtf8(s) { EncodedDecodes(text); }
  }

  // ---- The loop ----

  /** `valid_utf8`: no index leaves the text and no length underflows. */
  method IsValidUtf8(text: seq<Byte>) returns (valid: bool)
    ensures valid == ValidUtf8(text)
  {
    hide DecodeFirst;
    var index := 0;
    assert text[0..] == text;
    while index < |text|
      invariant index <= |text| && (ValidUtf8(text) <==> ValidUtf8(text[index..]))
      decreases |text| - index
    {
      var first := text[index];
      ghost var s := text[index..];
      if first <= 0x7F {
        AsciiFirst(s);
        assert s[1..] == text[index + 1..];
        index := index + 1;
        continue;
      }
      var lead := LeadOf(first);
      var c, ok := 0, false;
      if lead.Lead? && lead.count <= |text| - index - 1 {
        ok, c := ReadContinuation(text, index, lead);
      }
      LongFirst(s);
      if !ok || c < lead.minimum || !IsScalar(c) { return false; }
      assert s[lead.count + 1..] == text[index + lead.count + 1..];
      index := index + lead.count + 1;
    }
    valid := true;
  }

  lemma AsciiFirst(s: seq<Byte>)
    requires s != [] && s[0] <= 0x7F
    ensures DecodeFirst(s) == First(s[0], 1)
  {}

  lemma LongFirst(s: seq<Byte>)
    requires s != [] && s[0] > 0x7F
    ensures DecodeFirst(s) == DecodeLong(s, LeadOf(s[0]))
  {}

  /** The inner loop. */
  method ReadContinuation(text: seq<Byte>, index: nat, lead: Lead) returns (ok: bool, codePoint: nat)
    requires lead.Lead? && index + lead.count + 1 <= |text|
    ensures var r := Continue(text[index..], 1, lead.count, lead.bits);
      if ok then r == Some(codePoint) else r == None
  {
    ghost var s := text[index..];
    codePoint := lead.bits;
    var offset := 1;
    while offset <= lead.count
      invariant 1 <= offset <= lead.count + 1
      invariant Continue(s, 1, lead.count, lead.bits) == Continue(s, offset, lead.count + 1 - offset, codePoint)
    {
      var b := text[index + offset];
      assert b == s[offset];
      if !IsContinuation(b) { return false, 0; }
      codePoint := codePoint * 64 + b % 64;
      offset := offset + 1;
    }
    ok := true;
  }
}
