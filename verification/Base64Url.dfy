/** Unpadded base64url (section 5 of RFC 4648), decoded as leniently as Go's RawURLEncoding does. */
module Base64Url {
  import opened Basics

  type Byte = b: int | 0 <= b < 256
  type Sextet = v: int | 0 <= v < 64

  function Letter(v: Sextet): char {
    if v < 26 then 'A' + v as char
    else if v < 52 then 'a' + (v - 26) as char
    else if v < 62 then '0' + (v - 52) as char
    else if v == 62 then '-'
    else '_'
  }

  function Value(c: char): Option<Sextet> {
    if 'A' <= c <= 'Z' then Some((c - 'A') as int)
    else if 'a' <= c <= 'z' then Some((c - 'a') as int + 26)
    else if '0' <= c <= '9' then Some((c - '0') as int + 52)
    else if c == '-' then Some(62)
    else if c == '_' then Some(63)
    else None
  }

  lemma LettersAndValuesMatch(v: Sextet, c: char)
    ensures Value(Letter(v)) == Some(v) && Letter(v) != '\r' && Letter(v) != '\n'
    ensures Value(c).Some? ==> Letter(Value(c).value) == c
  {
  }

  const UPPER := "ABCDEFGHIJKLMNOPQRSTUVWXYZ"
  const LOWER := "abcdefghijklmnopqrstuvwxyz"
  const FIGURES := "0123456789"

  /** The alphabet of table 2 in section 5 of RFC 4648, of which no character means anything in a URL. */
  lemma AlphabetIsUrlSafe(v: Sextet)
    ensures v < 26 ==> Letter(v) == UPPER[v]
    ensures 26 <= v < 52 ==> Letter(v) == LOWER[v - 26]
    ensures 52 <= v < 62 ==> Letter(v) == FIGURES[v - 52]
    ensures v == 62 ==> Letter(v) == '-'
    ensures v == 63 ==> Letter(v) == '_'
  {
  }

  function Group(a: Byte, b: Byte, c: Byte): seq<Sextet> {
    [a / 4, a % 4 * 16 + b / 16, b % 16 * 4 + c / 64, c % 64]
  }

  function FirstByte(v: Sextet, w: Sextet): Byte { v * 4 + w / 16 }

  function SecondByte(v: Sextet, w: Sextet): Byte { v % 16 * 16 + w / 4 }

  function ThirdByte(v: Sextet, w: Sextet): Byte { v % 4 * 64 + w }

  /** Three bytes become four sextets; one or two left over become two or three, zero-filled. */
  function Sextets(bytes: seq<Byte>): seq<Sextet> {
    match |bytes|
    case 0 => []
    case 1 => Group(bytes[0], 0, 0)[..2]
    case 2 => Group(bytes[0], bytes[1], 0)[..3]
    case _ => Group(bytes[0], bytes[1], bytes[2]) + Sextets(bytes[3..])
  }

  /** Leftover bits of an incomplete last group are dropped unread; one leftover character is an error. */
  function Bytes(v: seq<Sextet>): Option<seq<Byte>> {
    match |v|
    case 0 => Some([])
    case 1 => None
    case 2 => Some([FirstByte(v[0], v[1])])
    case 3 => Some([FirstByte(v[0], v[1]), SecondByte(v[1], v[2])])
    case _ =>
      var rest := Bytes(v[4..]);
      if rest.None? then None
      else Some([FirstByte(v[0], v[1]), SecondByte(v[1], v[2]), ThirdByte(v[2], v[3])] + rest.value)
  }

  /** What sextets say, read to base 64. */
  function Amount(v: seq<Sextet>): int {
    if v == [] then 0 else Amount(v[..|v| - 1]) * 64 + v[|v| - 1] as int
  }

  lemma AmountOfFew(a: Sextet, b: Sextet, c: Sextet, d: Sextet)
    ensures Amount([a, b]) == a as int * 64 + b as int
    ensures Amount([a, b, c]) == (a as int * 64 + b as int) * 64 + c as int
    ensures Amount([a, b, c, d]) == ((a as int * 64 + b as int) * 64 + c as int) * 64 + d as int
  {
    assert Amount([a]) == a as int by {
      assert [a][..0] == [] && Amount([]) == 0;
    }
    assert [a, b][..1] == [a] && [a, b, c][..2] == [a, b] && [a, b, c, d][..3] == [a, b, c];
  }

  /** Four sextets are the number three bytes are, most significant first; what is left at the end is filled up with zeros. */
  lemma GroupsAreNumbers(a: Byte, b: Byte, c: Byte)
    ensures |Sextets([a, b, c])| == 4 && Amount(Sextets([a, b, c])) == (a as int * 256 + b as int) * 256 + c as int
    ensures |Sextets([a, b])| == 3 && Amount(Sextets([a, b])) * 64 == (a as int * 256 + b as int) * 256
    ensures |Sextets([a])| == 2 && Amount(Sextets([a])) * 4096 == a as int * 65536
  {
    assert [a, b, c][3..] == [];
    assert Sextets([a, b, c]) == Group(a, b, c) + [] == Group(a, b, c);
    var v, w, u := Group(a, b, c), Group(a, b, 0), Group(a, 0, 0);
    AmountOfFew(v[0], v[1], v[2], v[3]);
    AmountOfFew(w[0], w[1], w[2], w[3]);
    AmountOfFew(u[0], u[1], u[2], u[3]);
    assert Sextets([a, b]) == [w[0], w[1], w[2]] && Sextets([a]) == [u[0], u[1]];
  }

  function Spell(v: seq<Sextet>): string {
    if v == [] then "" else [Letter(v[0])] + Spell(v[1..])
  }

  function Read(s: string): Option<seq<Sextet>> {
    if s == "" then Some([])
    else
      var rest := Read(s[1..]);
      if Value(s[0]).None? || rest.None? then None else Some([Value(s[0]).value] + rest.value)
  }

  /** The decoder skips line breaks wherever they occur. */
  function Unbroken(s: string): string {
    if s == "" then ""
    else if s[0] == '\r' || s[0] == '\n' then Unbroken(s[1..])
    else [s[0]] + Unbroken(s[1..])
  }

  function Encode(bytes: seq<Byte>): string {
    Spell(Sextets(bytes))
  }

  function Decode(s: string): Option<seq<Byte>> {
    var v := Read(Unbroken(s));
    if v.None? then None else Bytes(v.value)
  }

  lemma GroupRoundTrip(a: Byte, b: Byte, c: Byte)
    ensures var g := Group(a, b, c);
            FirstByte(g[0], g[1]) == a && SecondByte(g[1], g[2]) == b && ThirdByte(g[2], g[3]) == c
  {
  }

  lemma FieldsRecovered(v: Sextet, w: Sextet)
    ensures FirstByte(v, w) / 4 == v && FirstByte(v, w) % 4 == w / 16
    ensures SecondByte(v, w) / 16 == v % 16 && SecondByte(v, w) % 16 == w / 4
    ensures ThirdByte(v, w) / 64 == v % 4 && ThirdByte(v, w) % 64 == w
  {
  }

  lemma GroupOfFields(a: Byte, b: Byte, c: Byte, v: seq<Sextet>)
    requires |v| == 4
    requires a / 4 == v[0] && a % 4 == v[1] / 16
    requires b / 16 == v[1] % 16 && b % 16 == v[2] / 4
    requires c / 64 == v[2] % 4 && c % 64 == v[3]
    ensures Group(a, b, c) == v
  {
  }

  lemma BytesRoundTrip(v: seq<Sextet>)
    requires |v| == 4
    ensures Group(FirstByte(v[0], v[1]), SecondByte(v[1], v[2]), ThirdByte(v[2], v[3])) == v
  {
    FieldsRecovered(v[0], v[1]);
    FieldsRecovered(v[1], v[2]);
    FieldsRecovered(v[2], v[3]);
    GroupOfFields(FirstByte(v[0], v[1]), SecondByte(v[1], v[2]), ThirdByte(v[2], v[3]), v);
  }

  lemma {:induction false} SextetsRoundTrip(bytes: seq<Byte>)
    ensures Bytes(Sextets(bytes)) == Some(bytes)
  {
    if |bytes| >= 3 {
      SextetsRoundTrip(bytes[3..]);
      GroupRoundTrip(bytes[0], bytes[1], bytes[2]);
      assert Sextets(bytes)[4..] == Sextets(bytes[3..]);
      assert Bytes(Sextets(bytes)).value == [bytes[0], bytes[1], bytes[2]] + bytes[3..] == bytes;
    } else if |bytes| == 2 {
      GroupRoundTrip(bytes[0], bytes[1], 0);
      assert Bytes(Sextets(bytes)).value == bytes;
    } else if |bytes| == 1 {
      GroupRoundTrip(bytes[0], 0, 0);
      assert Bytes(Sextets(bytes)).value == bytes;
    }
  }

  lemma LetterReadsBack(c: char, s: string)
    requires Value(c).Some? && Read(s).Some? && c != '\r' && c != '\n'
    ensures Read([c] + s) == Some([Value(c).value] + Read(s).value)
    ensures Unbroken([c] + s) == [c] + Unbroken(s)
  {
    assert ([c] + s)[1..] == s;
  }

  lemma {:induction false} SpellingRoundTrip(v: seq<Sextet>)
    ensures Read(Spell(v)) == Some(v) && Unbroken(Spell(v)) == Spell(v) && |Spell(v)| == |v|
  {
    if v != [] {
      LettersAndValuesMatch(v[0], Letter(v[0]));
      SpellingRoundTrip(v[1..]);
      LetterReadsBack(Letter(v[0]), Spell(v[1..]));
      assert Read(Spell(v)).value == [v[0]] + v[1..] == v;
    }
  }

  lemma {:induction false} ReadingSpellsBack(s: string)
    requires Read(s).Some?
    ensures Spell(Read(s).value) == s
  {
    if s != "" {
      ReadingSpellsBack(s[1..]);
      LettersAndValuesMatch(0, s[0]);
      assert Read(s).value[1..] == Read(s[1..]).value;
    }
  }

  lemma GroupEncodesBack(v: seq<Sextet>, rest: seq<Byte>)
    requires |v| == 4
    ensures Sextets([FirstByte(v[0], v[1]), SecondByte(v[1], v[2]), ThirdByte(v[2], v[3])] + rest) == v + Sextets(rest)
  {
    BytesRoundTrip(v);
    var bytes := [FirstByte(v[0], v[1]), SecondByte(v[1], v[2]), ThirdByte(v[2], v[3])] + rest;
    assert bytes[3..] == rest;
  }

  /** Decoding whole groups loses nothing. */
  lemma {:induction false} WholeGroupsEncodeBack(v: seq<Sextet>, groups: nat)
    requires Bytes(v).Some? && |Bytes(v).value| == 3 * groups
    ensures Sextets(Bytes(v).value) == v
  {
    if |v| >= 4 {
      var rest := Bytes(v[4..]).value;
      assert |Bytes(v).value| == 3 + |rest|;
      WholeGroupsEncodeBack(v[4..], groups - 1);
      GroupEncodesBack(v[..4], rest);
      assert v == v[..4] + v[4..];
    }
  }

  /** Every byte string survives the trip out and back. */
  lemma DecodingUndoesEncoding(bytes: seq<Byte>)
    ensures Decode(Encode(bytes)) == Some(bytes)
  {
    SextetsRoundTrip(bytes);
    SpellingRoundTrip(Sextets(bytes));
  }

  /** For whole groups there is one spelling per byte string, up to line breaks. */
  lemma OneSpellingPerPayload(s: string, bytes: seq<Byte>)
    requires |bytes| % 3 == 0
    ensures Decode(s) == Some(bytes) <==> Unbroken(s) == Encode(bytes)
  {
    if Decode(s) == Some(bytes) {
      WholeGroupsEncodeBack(Read(Unbroken(s)).value, |bytes| / 3);
      ReadingSpellsBack(Unbroken(s));
    }
    if Unbroken(s) == Encode(bytes) {
      SextetsRoundTrip(bytes);
      SpellingRoundTrip(Sextets(bytes));
    }
  }
}
