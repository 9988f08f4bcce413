/**
  The record `uuidhex|sha256hex` that a worker appends to a tenant's Redis list, and
  `_parse_record`, which reads it back (services/ingestor/batch_anchor.py).
 */
module BatchRecord {
  import opened Basics
  import opened Merkle
  import opened Text

  type Uuid = b: Bytes | |b| == 16 witness seq(16, _ => 0 as Byte)

  datatype Fingerprint = Fingerprint(id: Uuid, sha: Bytes)

  // --- Base16 (section 8 of RFC 4648), lower case on output ---

  function HexDigit(n: nat): (c: char)
    requires n < 16
    ensures HexValue(c) == Some(n)
    ensures '0' <= c <= '9' || 'a' <= c <= 'f'
  {
    if n < 10 then '0' + n as char else 'a' + (n - 10) as char
  }

  function HexValue(c: char): (r: Option<nat>)
    ensures r.Some? ==> r.value < 16
  {
    if '0' <= c <= '9' then Some((c - '0') as nat)
    else if 'a' <= c <= 'f' then Some((c - 'a') as nat + 10)
    else if 'A' <= c <= 'F' then Some((c - 'A') as nat + 10)
    else None
  }

  predicate IsHex(s: string) {
    forall i :: 0 <= i < |s| ==> HexValue(s[i]).Some?
  }

  function ToHex(b: Bytes): (s: string)
    ensures |s| == 2 * |b|
    ensures IsHex(s)
  {
    if b == [] then "" else
      [HexDigit(b[0] as nat / 16), HexDigit(b[0] as nat % 16)] + ToHex(b[1..])
  }

  /** `bytes.fromhex`: pairs of digits, with white space allowed between bytes. */
  function FromHex(s: string): Option<Bytes> {
    if s == "" then Some([])
    else if IsAsciiSpace(s[0]) then FromHex(s[1..])
    else if |s| == 1 then None
    else
      match (HexValue(s[0]), HexValue(s[1]), FromHex(s[2..]))
      case (Some(hi), Some(lo), Some(rest)) => Some([(16 * hi + lo) as Byte] + rest)
      case _ => None
  }

  lemma {:induction false} FromHexToHex(b: Bytes)
    ensures FromHex(ToHex(b)) == Some(b)
  {
    if b != [] {
      FromHexToHex(b[1..]);
      FromHexCons(b[0], ToHex(b[1..]), b[1..]);
      assert b == [b[0]] + b[1..];
    }
  }

  lemma FromHexCons(first: Byte, s: string, rest: Bytes)
    requires FromHex(s) == Some(rest)
    ensures FromHex([HexDigit(first as nat / 16), HexDigit(first as nat % 16)] + s) == Some([first] + rest)
  {
    var hi, lo := HexDigit(first as nat / 16), HexDigit(first as nat % 16);
    assert ([hi, lo] + s)[2..] == s;
    assert !IsAsciiSpace(hi);
  }

  /** Each byte is two digits, the high one first. */
  lemma {:induction false} HexPlaces(b: Bytes, i: nat)
    requires i < |b|
    ensures ToHex(b)[2 * i] == "0123456789abcdef"[b[i] as nat / 16]
    ensures ToHex(b)[2 * i + 1] == "0123456789abcdef"[b[i] as nat % 16]
  {
    if i == 0 {
      DigitIs(b[0] as nat / 16);
      DigitIs(b[0] as nat % 16);
    } else {
      HexPlaces(b[1..], i - 1);
    }
  }

  lemma DigitIs(n: nat)
    requires n < 16
    ensures HexDigit(n) == "0123456789abcdef"[n]
  {
  }

  // --- uuid.UUID(hex=...) ---

  function TrimBraces(s: string): string {
    TrimBracesRight(TrimBracesLeft(s))
  }

  function TrimBracesLeft(s: string): string {
    if s != "" && s[0] in "{}" then TrimBracesLeft(s[1..]) else s
  }

  function TrimBracesRight(s: string): string {
    if s != "" && s[|s| - 1] in "{}" then TrimBracesRight(s[..|s| - 1]) else s
  }

  function UuidFromHex(s: string): Option<Uuid> {
    var digits := RemoveAll(TrimBraces(RemoveAll(RemoveAll(s, "urn:"), "uuid:")), "-");
    if |digits| != 32 || !IsHex(digits) then None else
      match FromHex(digits)
      case Some(b) => if |b| == 16 then Some(b) else None
      case None => None
  }

  lemma PlainDigits(s: string)
    requires IsHex(s)
    ensures RemoveAll(TrimBraces(RemoveAll(RemoveAll(s, "urn:"), "uuid:")), "-") == s
  {
    assert ':' in "urn:" && ':' in "uuid:" && '-' in "-";
    assert ':' !in s && '-' !in s;
    RemoveAllAbsent(s, "urn:", ':');
    RemoveAllAbsent(s, "uuid:", ':');
    RemoveAllAbsent(s, "-", '-');
    TrimBracesAbsent(s);
  }

  lemma TrimBracesAbsent(s: string)
    requires IsHex(s)
    ensures TrimBraces(s) == s
  {
    assert HexValue('{') == None && HexValue('}') == None;
  }

  lemma UuidRoundTrip(id: Uuid)
    ensures UuidFromHex(ToHex(id)) == Some(id)
  {
    PlainDigits(ToHex(id));
    FromHexToHex(id);
  }

  // --- Records ---

  const BAR: char := '|'

  function WriteRecord(f: Fingerprint): string {
    ToHex(f.id) + [BAR] + ToHex(f.sha)
  }

  function IndexOf(s: string, c: char): (r: Option<nat>)
    ensures r.Some? ==> r.value < |s| && s[r.value] == c && c !in s[..r.value]
    ensures r.None? ==> c !in s
  {
    if s == "" then None
    else if s[0] == c then Some(0)
    else match IndexOf(s[1..], c)
      case Some(i) => assert s[..i + 1] == [s[0]] + s[1..][..i]; Some(i + 1)
      case None => None
  }

  /** None stands for each of the ValueErrors that `_parse_record` raises. */
  function ParseRecord(token: string): (r: Option<Fingerprint>)
    ensures r.Some? ==> |r.value.sha| == DIGEST_LENGTH
  {
    match IndexOf(token, BAR)
    case None => None
    case Some(i) =>
      match (UuidFromHex(token[..i]), FromHex(token[i + 1..]))
      case (Some(id), Some(sha)) => if |sha| == DIGEST_LENGTH then Some(Fingerprint(id, sha)) else None
      case _ => None
  }

  /** Reading a written record returns exactly the id and the digest that were written. */
  lemma ParseWritten(f: Fingerprint)
    ensures ParseRecord(WriteRecord(f)) == if |f.sha| == 32 then Some(f) else None
  {
    var token, left := WriteRecord(f), ToHex(f.id);
    assert token[|left|] == BAR && token[..|left|] == left;
    assert BAR !in left;
    assert IndexOf(token, BAR) == Some(|left|);
    assert token[|left| + 1..] == ToHex(f.sha);
    UuidRoundTrip(f.id);
    FromHexToHex(f.sha);
  }
}
