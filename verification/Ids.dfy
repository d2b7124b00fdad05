/** 16-byte identifiers and their dashed hexadecimal text (internal/evidence/bwj.go). */
module Ids {
  import opened Wrappers
  import opened Bytes

  type ID = s: Bytes | |s| == 16 witness seq(16, _ => 0)

  const DASH: byte := 45

  datatype IdError = InvalidLength | InvalidHex

  function HexDigit(n: nat): (d: byte)
    requires n < 16
    ensures d != DASH
  {
    if n < 10 then 48 + n else 87 + n
  }

  function HexValue(d: byte): Option<nat> {
    if 48 <= d <= 57 then Some(d - 48)
    else if 97 <= d <= 102 then Some(d - 87)
    else if 65 <= d <= 70 then Some(d - 55)
    else None
  }

  function HexEncode(s: Bytes): (r: Bytes)
    ensures |r| == 2 * |s|
    ensures DASH !in r
  {
    if s == [] then [] else [HexDigit(s[0] / 16), HexDigit(s[0] % 16)] + HexEncode(s[1..])
  }

  function HexDecode(t: Bytes): (r: Result<Bytes, IdError>)
    ensures r.Ok? ==> |t| == 2 * |r.value|
  {
    if t == [] then Ok([])
    else if |t| == 1 then Err(InvalidHex)
    else
      match (HexValue(t[0]), HexValue(t[1]))
      case (Some(hi), Some(lo)) =>
        if hi < 16 && lo < 16 then
          match HexDecode(t[2..])
          case Ok(rest) => Ok([16 * hi + lo] + rest)
          case Err(e) => Err(e)
        else Err(InvalidHex)
      case _ => Err(InvalidHex)
  }

  function FormatID(id: ID): (t: Bytes)
    ensures |t| == 36
  {
    var raw := HexEncode(id);
    raw[0..8] + [DASH] + raw[8..12] + [DASH] + raw[12..16] + [DASH] + raw[16..20] + [DASH] + raw[20..32]
  }

  function WithoutDashes(t: Bytes): Bytes {
    if t == [] then []
    else if t[0] == DASH then WithoutDashes(t[1..])
    else [t[0]] + WithoutDashes(t[1..])
  }

  function ParseID(t: Bytes): (r: Result<ID, IdError>) {
    var clean := WithoutDashes(t);
    if |clean| != 32 then Err(InvalidLength)
    else
      match HexDecode(clean)
      case Ok(raw) => Ok(raw)
      case Err(e) => Err(e)
  }

  lemma {:induction false} HexRoundTrip(s: Bytes)
    ensures HexDecode(HexEncode(s)) == Ok(s)
  {
    if s == [] {
    } else {
      var t := HexEncode(s);
      HexRoundTrip(s[1..]);
      assert t[2..] == HexEncode(s[1..]);
      assert 16 * (s[0] / 16) + s[0] % 16 == s[0];
      assert s == [s[0]] + s[1..];
    }
  }

  lemma {:induction false} WithoutDashesAppend(a: Bytes, b: Bytes)
    ensures WithoutDashes(a + b) == WithoutDashes(a) + WithoutDashes(b)
  {
    if a == [] {
      assert a + b == b;
    } else {
      WithoutDashesAppend(a[1..], b);
      assert (a + b)[0] == a[0] && (a + b)[1..] == a[1..] + b;
      Assoc([a[0]], WithoutDashes(a[1..]), WithoutDashes(b));
    }
  }

  lemma {:induction false} WithoutDashesKeeps(a: Bytes)
    requires DASH !in a
    ensures WithoutDashes(a) == a
  {
    if a != [] {
      WithoutDashesKeeps(a[1..]);
      assert a == [a[0]] + a[1..];
    }
  }

  lemma WithoutDashesField(a: Bytes, field: Bytes)
    requires DASH !in field
    ensures WithoutDashes(a + [DASH] + field) == WithoutDashes(a) + field
  {
    WithoutDashesAppend(a + [DASH], field);
    WithoutDashesAppend(a, [DASH]);
    WithoutDashesKeeps(field);
    assert WithoutDashes([DASH]) == [];
    assert WithoutDashes(a) + [] == WithoutDashes(a);
  }

  /** Parsing undoes formatting for every identifier. */
  lemma FormatParseRoundTrip(id: ID)
    ensures ParseID(FormatID(id)) == Ok(id)
  {
    var raw := HexEncode(id);
    WithoutDashesKeeps(raw[0..8]);
    WithoutDashesField(raw[0..8], raw[8..12]);
    WithoutDashesField(raw[0..8] + [DASH] + raw[8..12], raw[12..16]);
    WithoutDashesField(raw[0..8] + [DASH] + raw[8..12] + [DASH] + raw[12..16], raw[16..20]);
    WithoutDashesField(raw[0..8] + [DASH] + raw[8..12] + [DASH] + raw[12..16] + [DASH] + raw[16..20], raw[20..32]);
    assert raw[0..8] + raw[8..12] + raw[12..16] + raw[16..20] + raw[20..32] == raw;
    HexRoundTrip(id);
  }

  lemma {:induction false} HexSpells(s: Bytes, i: nat)
    requires i < |s|
    ensures HexEncode(s)[2 * i] == HexDigit(s[i] / 16) && HexEncode(s)[2 * i + 1] == HexDigit(s[i] % 16)
  {
    if i > 0 {
      HexSpells(s[1..], i - 1);
      assert HexEncode(s)[2..] == HexEncode(s[1..]);
      assert HexEncode(s)[2 * i] == HexEncode(s)[2..][2 * (i - 1)];
      assert HexEncode(s)[2 * i + 1] == HexEncode(s)[2..][2 * (i - 1) + 1];
    }
  }

  /** Where each digit of an identifier stands in its text. */
  lemma FormatAt(id: ID)
    ensures var t, raw := FormatID(id), HexEncode(id);
            && t[8] == t[13] == t[18] == t[23] == DASH
            && (forall k | 0 <= k < 8 :: t[k] == raw[k]) && (forall k | 9 <= k < 13 :: t[k] == raw[k - 1])
            && (forall k | 14 <= k < 18 :: t[k] == raw[k - 2]) && (forall k | 19 <= k < 23 :: t[k] == raw[k - 3])
            && (forall k | 24 <= k < 36 :: t[k] == raw[k - 4])
  {
    hide HexEncode;
  }

  lemma DigitsAreLowerCase(id: ID, j: nat)
    requires j < 32
    ensures 48 <= HexEncode(id)[j] <= 57 || 97 <= HexEncode(id)[j] <= 102
  {
    hide HexEncode;
    HexSpells(id, j / 2);
    assert j == 2 * (j / 2) || j == 2 * (j / 2) + 1;
  }

  /** The text of an identifier: lower-case digits in groups of 8, 4, 4, 4 and 12. */
  lemma FormatSpells(id: ID)
    ensures var t := FormatID(id);
            && t[8] == t[13] == t[18] == t[23] == 45
            && (forall k | 0 <= k < 36 && k !in [8, 13, 18, 23] :: 48 <= t[k] <= 57 || 97 <= t[k] <= 102)
            && t[0] == HexDigit(id[0] / 16) && t[35] == HexDigit(id[15] % 16)
  {
    hide HexEncode, FormatID;
    FormatAt(id);
    HexSpells(id, 0);
    HexSpells(id, 15);
    forall k | 0 <= k < 36 && k !in [8, 13, 18, 23]
      ensures 48 <= FormatID(id)[k] <= 57 || 97 <= FormatID(id)[k] <= 102
    {
      DigitsAreLowerCase(id, if k < 8 then k else if k < 13 then k - 1 else if k < 18 then k - 2 else if k < 23 then k - 3 else k - 4);
    }
  }

  /** Two identifiers with the same text are the same identifier. */
  lemma FormatIsInjective(a: ID, b: ID)
    requires FormatID(a) == FormatID(b)
    ensures a == b
  {
    FormatParseRoundTrip(a);
    FormatParseRoundTrip(b);
  }
}
