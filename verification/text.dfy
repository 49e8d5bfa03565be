/** Text of the static-data exchange format: integers rendered in decimal as
    Python's `str` does, and records of comma-separated fields.
    The reader half (`ParseInt`, `Split`, `ParseRecord`) is a reference reader
    used to state round trips; it is not part of the preprocessor. */
module Text {
  import opened Wrappers

  const Comma := ','

  predicate IsDigit(c: char) {
    '0' <= c <= '9'
  }

  predicate AllDigits(s: string) {
    forall i | 0 <= i < |s| :: IsDigit(s[i])
  }

  function DigitChar(d: nat): (c: char)
    requires d < 10
    ensures IsDigit(c)
  {
    (48 + d) as char
  }

  function DigitValue(c: char): (d: nat)
    requires IsDigit(c)
    ensures d < 10
    ensures DigitChar(d) == c
  {
    c as int - 48
  }

  /** Decimal digits of `n`, most significant first, no leading zeros. */
  function NatToStr(n: nat): (s: string)
    ensures |s| >= 1 && AllDigits(s)
    decreases n
  {
    if n < 10 then [DigitChar(n)] else NatToStr(n / 10) + [DigitChar(n % 10)]
  }

  /** Python's `str` on an int: a minus sign for negative values. */
  function IntToStr(i: int): (s: string)
    ensures |s| >= 1
    ensures Comma !in s
  {
    if i < 0 then "-" + NatToStr(-i) else NatToStr(i)
  }

  function ParseNat(s: string): nat
    requires AllDigits(s)
    decreases |s|
  {
    if |s| == 0 then 0 else ParseNat(s[..|s| - 1]) * 10 + DigitValue(s[|s| - 1])
  }

  /** Reads an optionally negative decimal integer; None for anything else. */
  function ParseInt(s: string): Option<int> {
    if |s| >= 2 && s[0] == '-' && AllDigits(s[1..]) then Some(0 - ParseNat(s[1..]) as int)
    else if |s| >= 1 && AllDigits(s) then Some(ParseNat(s))
    else None
  }

  lemma {:induction false} NatRoundTrip(n: nat)
    ensures ParseNat(NatToStr(n)) == n
    decreases n
  {
    if n >= 10 {
      var s := NatToStr(n);
      assert s[..|s| - 1] == NatToStr(n / 10);
      NatRoundTrip(n / 10);
    }
  }

  lemma IntRoundTrip(i: int)
    ensures ParseInt(IntToStr(i)) == Some(i)
  {
    var s := IntToStr(i);
    if i < 0 {
      assert s[1..] == NatToStr(-i);
      NatRoundTrip(-i);
    } else {
      assert IsDigit(s[0]);
      NatRoundTrip(i);
    }
  }

  /** Python's `sep.join(fields)`. */
  function Join(fields: seq<string>, sep: char): string {
    if |fields| == 0 then ""
    else if |fields| == 1 then fields[0]
    else fields[0] + [sep] + Join(fields[1..], sep)
  }

  /** Python's `s.split(sep)`: always at least one field. */
  function Split(s: string, sep: char): (fields: seq<string>)
    ensures |fields| >= 1
    decreases |s|
  {
    if |s| == 0 then [""]
    else
      var rest := Split(s[1..], sep);
      if s[0] == sep then [""] + rest else [[s[0]] + rest[0]] + rest[1..]
  }

  lemma {:induction false} SplitWithoutSeparator(a: string, sep: char)
    requires sep !in a
    ensures Split(a, sep) == [a]
    decreases |a|
  {
    if |a| > 0 {
      assert a[1..] + [] == a[1..];
      SplitWithoutSeparator(a[1..], sep);
      assert [a[0]] + a[1..] == a;
    }
  }

  lemma {:induction false} SplitFirstField(a: string, b: string, sep: char)
    requires sep !in a
    ensures Split(a + [sep] + b, sep) == [a] + Split(b, sep)
    decreases |a|
  {
    var s := a + [sep] + b;
    if |a| == 0 {
      assert s[1..] == b;
    } else {
      assert s[1..] == a[1..] + [sep] + b;
      SplitFirstField(a[1..], b, sep);
      assert [a[0]] + a[1..] == a;
    }
  }

  /** Joining separator-free fields and splitting again gives the fields back. */
  lemma {:induction false} SplitJoin(fields: seq<string>, sep: char)
    requires |fields| >= 1
    requires forall i | 0 <= i < |fields| :: sep !in fields[i]
    ensures Split(Join(fields, sep), sep) == fields
    decreases |fields|
  {
    if |fields| == 1 {
      SplitWithoutSeparator(fields[0], sep);
    } else {
      SplitFirstField(fields[0], Join(fields[1..], sep), sep);
      SplitJoin(fields[1..], sep);
      assert [fields[0]] + fields[1..] == fields;
    }
  }

  function IntFields(ids: seq<int>): (fields: seq<string>)
    ensures |fields| == |ids|
    ensures forall i | 0 <= i < |fields| :: Comma !in fields[i]
  {
    if |ids| == 0 then [] else [IntToStr(ids[0])] + IntFields(ids[1..])
  }

  /** One exchange record: the ids, comma-joined. */
  function Render(ids: seq<int>): string {
    Join(IntFields(ids), Comma)
  }

  function ParseFields(fields: seq<string>): Option<seq<int>> {
    if |fields| == 0 then Some([])
    else match (ParseInt(fields[0]), ParseFields(fields[1..]))
      case (Some(i), Some(rest)) => Some([i] + rest)
      case _ => None
  }

  /** Reference reader of one record. */
  function ParseRecord(s: string): Option<seq<int>> {
    ParseFields(Split(s, Comma))
  }

  lemma {:induction false} ParseIntFields(ids: seq<int>)
    ensures ParseFields(IntFields(ids)) == Some(ids)
    decreases |ids|
  {
    if |ids| > 0 {
      IntRoundTrip(ids[0]);
      ParseIntFields(ids[1..]);
      assert [ids[0]] + ids[1..] == ids;
    }
  }

  /** A non-empty record has one field per id and reads back as exactly those ids. */
  lemma RecordRoundTrip(ids: seq<int>)
    requires |ids| >= 1
    ensures |Split(Render(ids), Comma)| == |ids|
    ensures ParseRecord(Render(ids)) == Some(ids)
  {
    SplitJoin(IntFields(ids), Comma);
    ParseIntFields(ids);
  }
}
