/** Document identifiers of the store.

    A MongoDB ObjectId is twelve bytes. The routers receive it as a string,
    accept it when it is 24 hexadecimal digits in either case, and print it
    back in lower case. Records are keyed by a natural number below 16^24;
    `ParseId` and `IdString` convert between the two forms. */
module ObjectIds {
  import opened Results

  type Id = nat

  /** Number of hexadecimal digits in the string form of an id. */
  const IdLength: nat := 24

  function Pow16(k: nat): (p: nat)
    ensures p >= 1
  {
    if k == 0 then 1 else 16 * Pow16(k - 1)
  }

  /** Ids are twelve bytes wide: every id is below 16^24. */
  const IdSpace: nat := Pow16(IdLength)

  predicate IsHexDigit(c: char) {
    ('0' <= c <= '9') || ('a' <= c <= 'f') || ('A' <= c <= 'F')
  }

  predicate IsLowerHexDigit(c: char) {
    ('0' <= c <= '9') || ('a' <= c <= 'f')
  }

  predicate AllHex(s: string) {
    forall i :: 0 <= i < |s| ==> IsHexDigit(s[i])
  }

  function HexValue(c: char): (v: nat)
    requires IsHexDigit(c)
    ensures v < 16
  {
    if '0' <= c <= '9' then c as int - '0' as int
    else if 'a' <= c <= 'f' then c as int - 'a' as int + 10
    else c as int - 'A' as int + 10
  }

  /** The lower-case digit for `d`, as Python's `hex` prints it. */
  function HexDigit(d: nat): (c: char)
    requires d < 16
    ensures IsLowerHexDigit(c) && HexValue(c) == d
  {
    if d < 10 then ('0' as int + d) as char else ('a' as int + d - 10) as char
  }

  /** Folds 'A'..'F' to 'a'..'f'; other characters are unchanged. */
  function LowerChar(c: char): (l: char)
    ensures IsHexDigit(c) ==> IsLowerHexDigit(l) && HexValue(l) == HexValue(c)
  {
    if 'A' <= c <= 'F' then (c as int - 'A' as int + 'a' as int) as char else c
  }

  function Lower(s: string): (l: string)
    ensures |l| == |s|
    ensures forall i :: 0 <= i < |s| ==> l[i] == LowerChar(s[i])
  {
    if s == [] then [] else Lower(s[..|s| - 1]) + [LowerChar(s[|s| - 1])]
  }

  /** `ObjectId.is_valid` on a string argument. */
  predicate ValidId(s: string) {
    |s| == IdLength && AllHex(s)
  }

  /** Big-endian value of a string of hexadecimal digits. */
  function HexToNat(s: string): (n: nat)
    requires AllHex(s)
    ensures n < Pow16(|s|)
  {
    if s == [] then 0 else HexToNat(s[..|s| - 1]) * 16 + HexValue(s[|s| - 1])
  }

  /** The `width` low-order hexadecimal digits of `n`, in lower case. */
  function NatToHex(n: nat, width: nat): (s: string)
    ensures |s| == width
    ensures forall i :: 0 <= i < |s| ==> IsLowerHexDigit(s[i])
  {
    if width == 0 then [] else NatToHex(n / 16, width - 1) + [HexDigit(n % 16)]
  }

  /** `ObjectId(s)`: the id a valid string denotes, or None when `ObjectId.is_valid(s)` fails. */
  function ParseId(s: string): (r: Option<Id>)
    ensures r.Some? <==> ValidId(s)
    ensures r.Some? ==> r.value < IdSpace
  {
    if ValidId(s) then Some(HexToNat(s)) else None
  }

  /** `str(ObjectId)`: 24 lower-case hexadecimal digits. */
  function IdString(id: Id): (s: string)
    ensures ValidId(s)
  {
    NatToHex(id, IdLength)
  }

  lemma {:induction false} HexOfNat(n: nat, width: nat)
    requires n < Pow16(width)
    ensures HexToNat(NatToHex(n, width)) == n
  {
    if width > 0 {
      var p := Pow16(width - 1);
      assert n / 16 < p;
      HexOfNat(n / 16, width - 1);
      var s := NatToHex(n, width);
      assert s[..|s| - 1] == NatToHex(n / 16, width - 1);
    }
  }

  lemma {:induction false} NatOfHex(s: string)
    requires AllHex(s)
    ensures NatToHex(HexToNat(s), |s|) == Lower(s)
  {
    if s != [] {
      var init := s[..|s| - 1];
      var n := HexToNat(s);
      var v := HexValue(s[|s| - 1]);
      assert n / 16 == HexToNat(init) && n % 16 == v;
      NatOfHex(init);
      assert Lower(s)[..|s| - 1] == Lower(init);
      assert HexDigit(v) == LowerChar(s[|s| - 1]);
    }
  }

  /** Printing an id and parsing it back gives the same id. */
  lemma ParseIdString(id: Id)
    requires id < IdSpace
    ensures ParseId(IdString(id)) == Some(id)
  {
    HexOfNat(id, IdLength);
  }

  /** Parsing a valid string and printing the id gives the string in lower case. */
  lemma IdStringOfParse(s: string)
    requires ValidId(s)
    ensures IdString(ParseId(s).value) == Lower(s)
  {
    NatOfHex(s);
  }

  /** Two valid strings name the same document exactly when they agree up to case. */
  lemma SameIdIffSameLower(s: string, t: string)
    requires ValidId(s) && ValidId(t)
    ensures ParseId(s) == ParseId(t) <==> Lower(s) == Lower(t)
  {
    IdStringOfParse(s);
    IdStringOfParse(t);
    if Lower(s) == Lower(t) {
      ParseIdString(ParseId(s).value);
      ParseIdString(ParseId(t).value);
    }
  }

  /** The string form of an id is the only lower-case spelling of it. */
  lemma IdStringIsCanonical(s: string, id: Id)
    requires id < IdSpace && ParseId(s) == Some(id)
    ensures s == IdString(id) <==> Lower(s) == s
  {
    IdStringOfParse(s);
  }

  /** The last digit of a printed id is its value modulo 16. */
  lemma IdStringLastDigit(id: Id)
    ensures IdString(id)[IdLength - 1] == HexDigit(id % 16)
  {
  }

  /** A second spelling of an id whose last digit is a letter: the printed
      form with that digit in upper case. Both strings are valid and denote the
      same document, but they are different strings. */
  function UpperSpelling(id: Id): (s: string)
    requires id < IdSpace && id % 16 >= 10
    ensures ValidId(s) && ParseId(s) == Some(id) && s != IdString(id)
  {
    var printed := IdString(id);
    var last := ('A' as int + id % 16 - 10) as char;
    var s := printed[..IdLength - 1] + [last];
    IdStringLastDigit(id);
    assert Lower(s) == Lower(printed) by {
      assert forall i :: 0 <= i < IdLength ==> LowerChar(s[i]) == LowerChar(printed[i]);
    }
    ParseIdString(id);
    SameIdIffSameLower(s, printed);
    s
  }
}
