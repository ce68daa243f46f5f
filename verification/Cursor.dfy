/** The opaque cursor of the audit log (internal/audit/query.go): a timestamp
    and an event id in decimal, joined by a dot. */
module Cursor {
  import opened Basics
  import opened Permref

  const MIN_INT64 := -0x8000_0000_0000_0000
  const MAX_INT64 := 0x7fff_ffff_ffff_ffff

  predicate Int64(n: int) { MIN_INT64 <= n <= MAX_INT64 }

  function DigitChar(d: int): char
    requires 0 <= d < 10
  {
    ['0', '1', '2', '3', '4', '5', '6', '7', '8', '9'][d]
  }

  function Natural(n: nat): (s: string)
    ensures s != ""
  {
    if n < 10 then [DigitChar(n)] else Natural(n / 10) + [DigitChar(n % 10)]
  }

  /** strconv.FormatInt in base ten. */
  function Format(n: int): string { if n < 0 then "-" + Natural(-n) else Natural(n) }

  function DigitValue(c: char): (d: int)
    requires Digit(c)
    ensures 0 <= d < 10 && DigitChar(d) == c
  {
    c as int - '0' as int
  }

  predicate Digits(s: string) { forall i :: 0 <= i < |s| ==> Digit(s[i]) }

  function Value(s: string): (n: int)
    requires Digits(s)
    ensures n >= 0
  {
    if s == "" then 0 else 10 * Value(s[..|s| - 1]) + DigitValue(s[|s| - 1])
  }

  /** strconv.ParseInt in base ten: an optional sign, digits, and the range. */
  function Parse(s: string): Option<int> {
    var (neg, body) := if s != "" && (s[0] == '-' || s[0] == '+') then (s[0] == '-', s[1..]) else (false, s);
    if body == "" || !Digits(body) then None else
    var n: int := if neg then 0 - Value(body) else Value(body);
    if Int64(n) then Some(n) else None
  }

  lemma {:induction false} NaturalValue(n: nat)
    ensures Digits(Natural(n)) && Value(Natural(n)) == n
  {
    var s := Natural(n);
    if n < 10 {
      assert s[..|s| - 1] == "";
    } else {
      NaturalValue(n / 10);
      assert s[..|s| - 1] == Natural(n / 10);
    }
  }

  lemma ParseBody(s: string)
    requires s != "" && Digits(s)
    ensures Int64(Value(s)) ==> Parse(s) == Some(Value(s))
    ensures Int64(0 - Value(s)) ==> Parse("-" + s) == Some(0 - Value(s))
  {
    assert Digit(s[0]);
    assert ("-" + s)[1..] == s;
  }

  lemma ParseFormat(n: int)
    requires Int64(n)
    ensures Parse(Format(n)) == Some(n) && Free(Format(n), '.')
  {
    var m := if n < 0 then -n else n;
    NaturalValue(m);
    ParseBody(Natural(m));
    NoDot(Natural(m));
  }

  lemma NoDot(s: string)
    requires Digits(s)
    ensures Free(s, '.') && Free("-" + s, '.')
  {
  }

  /** Where the next page begins: after the row with this time and id. An id of
      zero is the form an earlier release issued, without the id. */
  datatype Mark = Mark(ts: int, id: int)

  function Print(m: Mark): string { Format(m.ts) + "." + Format(m.id) }

  function ParseCursor(c: string): (r: Option<Mark>)
    ensures r.Some? ==> Int64(r.value.ts) && 0 <= r.value.id
  {
    match Cut(c, '.')
    case None => (match Parse(c) case None => None case Some(ts) => Some(Mark(ts, 0)))
    case Some((a, b)) =>
      match Parse(a)
      case None => None
      case Some(ts) => (match Parse(b) case None => None case Some(id) => if id < 1 then None else Some(Mark(ts, id)))
  }

  /** A printed cursor is read back as it was. */
  lemma CursorRoundTrip(m: Mark)
    requires Int64(m.ts) && 1 <= m.id <= MAX_INT64
    ensures ParseCursor(Print(m)) == Some(m)
  {
    ParseFormat(m.ts);
    ParseFormat(m.id);
    CutAt(Format(m.ts), Format(m.id), '.');
    assert Print(m) == Format(m.ts) + ['.'] + Format(m.id);
  }

  /** A cursor without an id, as an earlier release issued it, is a bare time; an
      id below one is refused. */
  lemma OtherCursors(ts: int, id: int)
    requires Int64(ts) && Int64(id)
    ensures ParseCursor(Format(ts)) == Some(Mark(ts, 0))
    ensures id < 1 ==> ParseCursor(Format(ts) + "." + Format(id)) == None
  {
    ParseFormat(ts);
    ParseFormat(id);
    CutAt(Format(ts), Format(id), '.');
    assert Format(ts) + "." + Format(id) == Format(ts) + ['.'] + Format(id);
    NoCut(Format(ts), '.');
  }

  lemma {:induction false} NoCut(s: string, sep: char)
    requires Free(s, sep)
    ensures Cut(s, sep) == None
  {
    if s != "" { NoCut(s[1..], sep); }
  }
}
