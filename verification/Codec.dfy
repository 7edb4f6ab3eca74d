/**
 The P-chain's spellings of bytes: CB58 for 32-byte IDs, and the `hex`, `hexc` and
 `hexnc` encodings (base 16 as in section 8 of RFC 4648). SHA-256 is a parameter.
 */
module Codec {
  import opened Wrappers
  import opened Base58

  type Byte = x: nat | x < 256
  type Bytes = seq<Byte>
  type Digest = d: Bytes | |d| == 32 witness seq(32, _ => 0)
  type Sha256 = Bytes -> Digest

  // ------------------------------------------------------------- block kinds

  datatype BlockKind = Proposal | Commit | Abort | Other

  /** The type ID is the big-endian u32 at offset 2; unknown and truncated blocks resolve nothing. */
  function KindOf(bytes: Bytes): BlockKind {
    if |bytes| < 6 then Other
    else
      var id := Value(bytes[2..6], 256);
      if id == 0 || id == 29 then Proposal
      else if id == 2 || id == 31 then Commit
      else if id == 1 || id == 30 then Abort
      else Other
  }

  lemma FourBytes(b: seq<nat>)
    requires |b| == 4
    ensures Value(b, 256) == ((b[0] * 256 + b[1]) * 256 + b[2]) * 256 + b[3]
  {
    assert b == (([] + [b[0]]) + [b[1]]) + [b[2]] + [b[3]];
    ValueSnoc([], b[0], 256);
    ValueSnoc([] + [b[0]], b[1], 256);
    ValueSnoc([] + [b[0]] + [b[1]], b[2], 256);
    ValueSnoc([] + [b[0]] + [b[1]] + [b[2]], b[3], 256);
  }

  /** Does the block's type ID, after two version bytes, read as this one small number? */
  predicate TypeByte(bytes: Bytes, code: Byte) { |bytes| >= 6 && bytes[2..6] == [0, 0, 0, code] }

  /**
   Read byte by byte: after the two version bytes, three zeros and one deciding byte, with the
   Banff codes 29 above the Apricot ones. Anything else, a short block included, resolves nothing.
   */
  lemma KindByBytes(bytes: Bytes)
    ensures KindOf(bytes) == Proposal <==> TypeByte(bytes, 0) || TypeByte(bytes, 29)
    ensures KindOf(bytes) == Abort <==> TypeByte(bytes, 1) || TypeByte(bytes, 30)
    ensures KindOf(bytes) == Commit <==> TypeByte(bytes, 2) || TypeByte(bytes, 31)
  {
    if |bytes| >= 6 { FourBytes(bytes[2..6]); }
  }

  // -------------------------------------------------------------------- CB58

  function Checksum(sha: Sha256, payload: Bytes): (c: Bytes)
    ensures |c| == 4
  {
    sha(payload)[28..]
  }

  /** The checksum is the end of the digest. */
  lemma ChecksumEndsTheDigest(sha: Sha256, payload: Bytes)
    ensures exists head: Bytes :: |head| == 28 && sha(payload) == head + Checksum(sha, payload)
  {
    assert sha(payload) == sha(payload)[..28] + Checksum(sha, payload);
  }

  function Base58Encode(bytes: Bytes): string { Spell(Recode(bytes, 256, 58)) }

  function Base58Decode(s: string): Result<Bytes> {
    match Unspell(s)
    case None => Err
    case Some(ds) => Ok(Recode(ds, 58, 256))
  }

  function Cb58Encode(sha: Sha256, id: Digest): string { Base58Encode(id + Checksum(sha, id)) }

  function Cb58Decode(sha: Sha256, s: string): Result<Digest> {
    match Base58Decode(s)
    case Err => Err
    case Ok(raw) =>
      if |raw| == 36 && raw[32..] == Checksum(sha, raw[..32]) then Ok(raw[..32]) else Err
  }

  /** Base58 is a bijection between byte strings and strings over its alphabet. */
  lemma Base58Bijection(bytes: Bytes, s: string)
    ensures Base58Decode(Base58Encode(bytes)) == Ok(bytes)
    ensures Base58Decode(s).Ok? ==> Base58Encode(Base58Decode(s).value) == s
    ensures Base58Decode(s).Err? <==> exists i :: 0 <= i < |s| && DigitOf(s[i]).None?
  {
    RecodeInverse(bytes, 256, 58);
    UnspellSpell(Recode(bytes, 256, 58));
    match Unspell(s)
    case None =>
    case Some(ds) => RecodeInverse(ds, 58, 256);
  }

  /** Decoding an encoded ID gives the ID back. */
  lemma Cb58RoundTrip(sha: Sha256, id: Digest)
    ensures Cb58Decode(sha, Cb58Encode(sha, id)) == Ok(id)
  {
    var raw: Bytes := id + Checksum(sha, id);
    Base58Bijection(raw, "");
    assert raw[..32] == id && raw[32..] == Checksum(sha, id);
  }

  /** An accepted string is the one spelling of its ID, leading zero bytes included. */
  lemma Cb58OneSpelling(sha: Sha256, s: string)
    ensures Cb58Decode(sha, s).Ok? ==> Cb58Encode(sha, Cb58Decode(sha, s).value) == s
    ensures Cb58Decode(sha, s).Ok? <==> exists id: Digest :: Cb58Encode(sha, id) == s
  {
    Base58Bijection([], s);
    if Cb58Decode(sha, s).Ok? {
      var raw := Base58Decode(s).value;
      assert raw == raw[..32] + raw[32..];
    }
    forall id: Digest | Cb58Encode(sha, id) == s ensures Cb58Decode(sha, s).Ok? {
      Cb58RoundTrip(sha, id);
    }
  }

  // --------------------------------------------------------------------- hex

  function Nibble(n: nat): char
    requires n < 16
  {
    if n < 10 then ('0' as int + n) as char else ('a' as int + (n - 10)) as char
  }

  function Lower(c: char): char { if 'A' <= c <= 'Z' then (c as int + 32) as char else c }

  function LowerAll(s: string): (r: string)
    ensures |r| == |s| && forall i :: 0 <= i < |s| ==> r[i] == Lower(s[i])
  {
    seq(|s|, i requires 0 <= i < |s| => Lower(s[i]))
  }

  /** The sixteen digits are the decimal ones and `a` to `f`, in order, and case is all `Lower` forgets. */
  lemma HexDigits(n: nat, m: nat, c: char, d: char)
    requires n < 16 && m < 16
    ensures ('0' <= Nibble(n) <= '9' || 'a' <= Nibble(n) <= 'f') && (Nibble(n) < Nibble(m) <==> n < m)
    ensures Lower(c) == Lower(d) <==>
            || c == d
            || ('A' <= c <= 'Z' && d as int == c as int + 32)
            || ('A' <= d <= 'Z' && c as int == d as int + 32)
  {
  }

  /** Both cases are accepted, as the `hex` crate does. */
  function NibbleOf(c: char): (r: Option<nat>)
    ensures r.Some? ==> r.value < 16 && Nibble(r.value) == Lower(c)
    ensures forall n: nat :: n < 16 && Nibble(n) == Lower(c) ==> r == Some(n)
  {
    if '0' <= c <= '9' then Some(c as int - '0' as int)
    else if 'a' <= c <= 'f' then Some(c as int - 'a' as int + 10)
    else if 'A' <= c <= 'F' then Some(c as int - 'A' as int + 10)
    else None
  }

  function HexEncode(bytes: Bytes): string {
    if bytes == [] then "" else [Nibble(bytes[0] / 16), Nibble(bytes[0] % 16)] + HexEncode(bytes[1..])
  }

  function HexDecode(s: string): Result<Bytes> {
    if s == "" then Ok([])
    else if |s| == 1 then Err
    else
      match (NibbleOf(s[0]), NibbleOf(s[1]), HexDecode(s[2..]))
      case (Some(hi), Some(lo), Ok(rest)) => Ok([hi * 16 + lo] + rest)
      case _ => Err
  }

  /** One byte and its two digits spell each other. */
  lemma NibblesOfByte(b: Byte)
    ensures b / 16 < 16 && NibbleOf(Nibble(b / 16)) == Some(b / 16) && NibbleOf(Nibble(b % 16)) == Some(b % 16)
  {
  }

  lemma {:induction false} HexRoundTrip(bytes: Bytes)
    ensures HexDecode(HexEncode(bytes)) == Ok(bytes)
  {
    if bytes == [] {
    } else {
      HexRoundTrip(bytes[1..]);
      OneByteDecodes(bytes[0], HexEncode(bytes[1..]), bytes[1..]);
      assert bytes == [bytes[0]] + bytes[1..];
    }
  }

  lemma OneByteDecodes(b: Byte, s: string, rest: Bytes)
    requires HexDecode(s) == Ok(rest)
    ensures b / 16 < 16 && HexDecode([Nibble(b / 16), Nibble(b % 16)] + s) == Ok([b] + rest)
  {
    NibblesOfByte(b);
    hide Nibble, NibbleOf;
    assert ([Nibble(b / 16), Nibble(b % 16)] + s)[2..] == s;
  }

  /** Case does not matter to decoding. */
  lemma {:induction false} HexCaseFree(s: string)
    ensures HexDecode(LowerAll(s)) == HexDecode(s)
  {
    hide NibbleOf, Lower, LowerAll;
    if |s| < 2 {
    } else {
      HexCaseFree(s[2..]);
      assert LowerAll(s)[2..] == LowerAll(s[2..]);
      NibbleCaseFree(s[0]);
      NibbleCaseFree(s[1]);
    }
  }

  lemma NibbleCaseFree(c: char)
    ensures NibbleOf(Lower(c)) == NibbleOf(c)
  {
  }

  lemma {:induction false} HexOneSpelling(s: string)
    requires HexDecode(s).Ok?
    ensures HexEncode(HexDecode(s).value) == LowerAll(s)
  {
    if s == "" {
    } else {
      HexOneSpelling(s[2..]);
      OneByteSpelling(s, NibbleOf(s[0]).value, NibbleOf(s[1]).value, HexDecode(s[2..]).value);
    }
  }

  lemma OneByteSpelling(s: string, hi: nat, lo: nat, rest: Bytes)
    requires |s| >= 2 && NibbleOf(s[0]) == Some(hi) && NibbleOf(s[1]) == Some(lo)
    requires HexEncode(rest) == LowerAll(s[2..])
    ensures hi * 16 + lo < 256 && HexEncode([hi * 16 + lo] + rest) == LowerAll(s)
  {
    hide Nibble, NibbleOf, Lower, LowerAll;
    var b: Byte := hi * 16 + lo;
    assert b / 16 == hi && b % 16 == lo;
    assert ([b] + rest)[1..] == rest;
    assert LowerAll(s) == [Lower(s[0]), Lower(s[1])] + LowerAll(s[2..]);
  }

  datatype Encoding = Hex | Hexc | Hexnc | JsonForm

  function HexWithChecksum(sha: Sha256, bytes: Bytes): string {
    "0x" + HexEncode(bytes + Checksum(sha, bytes))
  }

  function RenderBytes(sha: Sha256, enc: Encoding, bytes: Bytes): Option<string> {
    match enc
    case Hex => Some(HexWithChecksum(sha, bytes))
    case Hexc => Some(HexWithChecksum(sha, bytes))
    case Hexnc => Some("0x" + HexEncode(bytes))
    case JsonForm => None
  }

  function HexncDecode(s: string): Result<Bytes> {
    if "0x" <= s then HexDecode(s[2..]) else Err
  }

  /**
   `hexnc` decoding undoes `hexnc` rendering for all bytes; the checksummed forms
   decode to the same bytes followed by their four checksum bytes.
   */
  lemma RenderedBytesDecode(sha: Sha256, enc: Encoding, bytes: Bytes)
    requires enc != JsonForm
    ensures RenderBytes(sha, enc, bytes).Some?
    ensures HexncDecode(RenderBytes(sha, enc, bytes).value)
         == Ok(if enc == Hexnc then bytes else bytes + Checksum(sha, bytes))
  {
    var payload: Bytes := if enc == Hexnc then bytes else bytes + Checksum(sha, bytes);
    HexRoundTrip(payload);
    assert ("0x" + HexEncode(payload))[2..] == HexEncode(payload);
  }

  /** Rendering what was decoded restores the string exactly when it was written in lower case. */
  lemma HexncOneSpelling(sha: Sha256, s: string)
    requires HexncDecode(s).Ok?
    ensures var back := RenderBytes(sha, Hexnc, HexncDecode(s).value);
            back == Some(LowerAll(s)) && (back == Some(s) <==> forall i :: 0 <= i < |s| ==> Lower(s[i]) == s[i])
  {
    HexOneSpelling(s[2..]);
    assert s == "0x" + s[2..];
    assert LowerAll(s) == "0x" + LowerAll(s[2..]);
    if LowerAll(s) == s {
      forall i | 0 <= i < |s| ensures Lower(s[i]) == s[i] { assert LowerAll(s)[i] == s[i]; }
    }
  }
}
