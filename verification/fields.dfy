/**
  A self-delimiting text encoding of strings and integers: each field is its length in decimal,
  a ':' and the field's characters. The model uses it as the serialized form of tokens and
  signatures; what matters about it is only that reading undoes writing.
*/
module Fields {
  import opened Wrappers
  import opened Decimal

  function Field(s: string): string {
    FormatNat(|s|) + ":" + s
  }

  /** Length of the run of decimal digits at the start of `s`. */
  function DigitRun(s: string): (k: nat)
    ensures k <= |s|
    ensures AllDigits(s[..k])
    ensures k < |s| ==> !IsDigit(s[k])
  {
    if |s| > 0 && IsDigit(s[0]) then
      var k := 1 + DigitRun(s[1..]);
      assert s[..k] == [s[0]] + s[1..][..k - 1];
      k
    else 0
  }

  /** Reads one field off the front of `s`, returning its text and what follows it. */
  function ReadField(s: string): (r: Option<(string, string)>)
    ensures r.Some? ==> |r.value.1| < |s|
  {
    var k := DigitRun(s);
    if k == 0 || k == |s| || s[k] != ':' then None
    else
      var n := Value(s[..k]);
      if k + 1 + n <= |s| then Some((s[k + 1..k + 1 + n], s[k + 1 + n..])) else None
  }

  lemma {:induction false} DigitRunOfDigits(d: string, t: string)
    requires AllDigits(d)
    requires t == [] || !IsDigit(t[0])
    ensures DigitRun(d + t) == |d|
    decreases |d|
  {
    if d == [] {
      assert d + t == t;
    } else {
      assert (d + t)[1..] == d[1..] + t;
      DigitRunOfDigits(d[1..], t);
    }
  }

  lemma ReadFieldOfField(x: string, rest: string)
    ensures ReadField(Field(x) + rest) == Some((x, rest))
  {
    var d := FormatNat(|x|);
    var s := Field(x) + rest;
    assert s == d + (":" + x + rest);
    DigitRunOfDigits(d, ":" + x + rest);
    assert s[..|d|] == d;
    ValueOfFormatNat(|x|);
    var k := |d|;
    assert s[k + 1..k + 1 + |x|] == x;
    assert s[k + 1 + |x|..] == rest;
  }

  function IntField(i: int): string {
    Field(FormatInt(i))
  }

  function ReadInt(s: string): (r: Option<(int, string)>)
    ensures r.Some? ==> |r.value.1| < |s|
  {
    match ReadField(s)
    case None => None
    case Some((text, rest)) =>
      match ParseDecimal(text)
      case None => None
      case Some(i) => Some((i, rest))
  }

  lemma ReadIntOfIntField(i: int, rest: string)
    ensures ReadInt(IntField(i) + rest) == Some((i, rest))
  {
    ReadFieldOfField(FormatInt(i), rest);
    ParseFormatInt(i);
  }

  /** An optional integer: the empty field for an absent one (no integer has empty text). */
  function OptIntField(o: Option<int>): string {
    match o
    case None => Field("")
    case Some(i) => IntField(i)
  }

  function ReadOptInt(s: string): (r: Option<(Option<int>, string)>)
    ensures r.Some? ==> |r.value.1| < |s|
  {
    match ReadField(s)
    case None => None
    case Some((text, rest)) =>
      if text == "" then Some((None, rest))
      else
        match ParseDecimal(text)
        case None => None
        case Some(i) => Some((Some(i), rest))
  }

  lemma ReadOptIntOfOptIntField(o: Option<int>, rest: string)
    ensures ReadOptInt(OptIntField(o) + rest) == Some((o, rest))
  {
    match o {
      case None =>
        ReadFieldOfField("", rest);
      case Some(i) =>
        ReadFieldOfField(FormatInt(i), rest);
        ParseFormatInt(i);
    }
  }
}
