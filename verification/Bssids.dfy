/** MAC addresses and their text form (wlinkd/src/wlan_utils.c). */
module Bssids {
  import opened Text

  type Mac = m: seq<Byte> | |m| == 6 witness [0, 0, 0, 0, 0, 0]

  /** Room for text in a `char[MAC_ADDR_LEN]` buffer, terminator excluded. */
  const BSSID_CHARS := 17

  const HEX := "0123456789ABCDEF"

  /** `%02X`. */
  function Hex2(b: Byte): string { [HEX[b / 16], HEX[b % 16]] }

  function CharAt(m: Mac, i: nat): char
    requires i < BSSID_CHARS
  {
    if i % 3 == 2 then ':' else Hex2(m[i / 3])[i % 3]
  }

  /** `%02X:%02X:%02X:%02X:%02X:%02X`, character by character. */
  function FormatBssid(m: Mac): (t: string)
    ensures |t| == BSSID_CHARS
  {
    seq(BSSID_CHARS, i requires 0 <= i < BSSID_CHARS => CharAt(m, i))
  }

  function HexValue(c: char): Option<nat> {
    if '0' <= c <= '9' then Some((c - '0') as nat)
    else if 'A' <= c <= 'F' then Some((c - 'A') as nat + 10)
    else None
  }

  /** Two upper-case hexadecimal digits, read back. */
  function ParseHex2(t: string): (r: Option<Byte>)
    requires |t| == 2
  {
    match (HexValue(t[0]), HexValue(t[1]))
    case (Some(h), Some(l)) => if h < 16 && l < 16 then Some(h * 16 + l) else None
    case _ => None
  }

  /** The i-th of the six colon-separated fields. */
  function Field(t: string, i: nat): Option<Byte>
    requires |t| == BSSID_CHARS && i < 6
  {
    ParseHex2(t[3 * i..3 * i + 2])
  }

  function ParseBssid(t: string): Option<Mac> {
    if && |t| == BSSID_CHARS
       && (forall i :: 0 <= i < 6 ==> Field(t, i).Some?)
       && (forall i :: 0 <= i < 5 ==> t[3 * i + 2] == ':')
    then Some(seq(6, i requires 0 <= i < 6 && |t| == BSSID_CHARS && Field(t, i).Some? => Field(t, i).value))
    else None
  }

  lemma HexDigitReadsBack(d: nat)
    requires d < 16
    ensures HexValue(HEX[d]) == Some(d)
  {
  }

  lemma Hex2ReadsBack(b: Byte)
    ensures ParseHex2(Hex2(b)) == Some(b)
  {
    HexDigitReadsBack(b / 16);
    HexDigitReadsBack(b % 16);
  }

  /** Byte by byte: two upper-case hexadecimal digits, high one first, and colons between. */
  lemma FormatIs(m: Mac, i: nat)
    requires i < 6
    ensures FormatBssid(m)[3 * i] == "0123456789ABCDEF"[m[i] / 16]
    ensures FormatBssid(m)[3 * i + 1] == "0123456789ABCDEF"[m[i] % 16]
    ensures i < 5 ==> FormatBssid(m)[3 * i + 2] == ':'
  {
    assert 3 * i % 3 == 0 && (3 * i + 1) % 3 == 1 && (3 * i + 2) % 3 == 2 && 3 * i / 3 == (3 * i + 1) / 3 == i;
  }

  lemma FieldOfFormat(m: Mac, i: nat)
    requires i < 6
    ensures Field(FormatBssid(m), i) == Some(m[i])
    ensures i < 5 ==> FormatBssid(m)[3 * i + 2] == ':'
  {
    FormatIs(m, i);
    FieldOfDigits(FormatBssid(m), i, m[i]);
  }

  lemma FieldOfDigits(t: string, i: nat, b: Byte)
    requires |t| == BSSID_CHARS && i < 6 && t[3 * i] == HEX[b / 16] && t[3 * i + 1] == HEX[b % 16]
    ensures Field(t, i) == Some(b)
  {
    TwoOf(t, 3 * i);
    Hex2ReadsBack(b);
  }

  lemma TwoOf(t: string, k: nat)
    requires k + 2 <= |t|
    ensures t[k..k + 2] == [t[k], t[k + 1]]
  {
  }

  /** The text is a faithful key: the six bytes can be read back from it. */
  lemma ParseOfFormat(m: Mac)
    ensures ParseBssid(FormatBssid(m)) == Some(m)
  {
    var t := FormatBssid(m);
    forall i | 0 <= i < 6
      ensures Field(t, i) == Some(m[i])
    {
      FieldOfFormat(m, i);
    }
    forall i | 0 <= i < 5
      ensures t[3 * i + 2] == ':'
    {
      FieldOfFormat(m, i);
    }
    assert ParseBssid(t).value == m;
  }

  lemma FormatInjective(m: Mac, n: Mac)
    ensures FormatBssid(m) == FormatBssid(n) <==> m == n
  {
    ParseOfFormat(m);
    ParseOfFormat(n);
  }
}
