/** The raw-data line PerfTimer::saveTimingData writes after the statistics:
    every sample, in recorded order, joined by ",". Samples are integral
    nanosecond counts and are rendered here as exact decimal integers. */
module DataLine {

  predicate IsDigit(c: char)
  {
    '0' <= c <= '9'
  }

  function DigitChar(d: nat): (c: char)
    requires d < 10
    ensures IsDigit(c)
  {
    (d + '0' as int) as char
  }

  function DigitValue(c: char): nat
  {
    if IsDigit(c) then c as int - '0' as int else 0
  }

  /** Decimal digits of a natural number, most significant first. */
  function NatToString(n: nat): (r: string)
    ensures |r| > 0
    ensures forall i :: 0 <= i < |r| ==> IsDigit(r[i])
  {
    if n < 10 then [DigitChar(n)] else NatToString(n / 10) + [DigitChar(n % 10)]
  }

  /** A sample as it appears on the data line: a minus sign for negative
      values, then the decimal digits. */
  function Render(x: int): string
  {
    if x < 0 then "-" + NatToString(-x) else NatToString(x)
  }

  function ParseNat(s: string): nat
  {
    if s == [] then 0 else ParseNat(s[..|s| - 1]) * 10 + DigitValue(s[|s| - 1])
  }

  function ParseInt(s: string): int
  {
    if |s| > 0 && s[0] == '-' then -(ParseNat(s[1..]) as int) else ParseNat(s)
  }

  /** The rendered samples, one string per sample. */
  function RenderAll(s: seq<int>): (r: seq<string>)
    ensures |r| == |s|
    ensures forall i :: 0 <= i < |s| ==> r[i] == Render(s[i])
  {
    seq(|s|, i requires 0 <= i < |s| => Render(s[i]))
  }

  function ParseAll(items: seq<string>): (r: seq<int>)
    ensures |r| == |items|
    ensures forall i :: 0 <= i < |items| ==> r[i] == ParseInt(items[i])
  {
    seq(|items|, i requires 0 <= i < |items| => ParseInt(items[i]))
  }

  /** Items separated by single commas, with none before the first item or
      after the last. */
  function Join(items: seq<string>): string
    requires |items| > 0
  {
    if |items| == 1 then items[0]
    else Join(items[..|items| - 1]) + "," + items[|items| - 1]
  }

  /** The fields of a comma-separated line; a line without commas is one field. */
  function Split(line: string): (r: seq<string>)
    ensures |r| > 0
  {
    if line == [] then [[]]
    else
      var init := Split(line[..|line| - 1]);
      var c := line[|line| - 1];
      if c == ',' then init + [[]]
      else init[..|init| - 1] + [init[|init| - 1] + [c]]
  }

  /** Reading the data line back as integers. */
  function ParseDataLine(line: string): seq<int>
  {
    ParseAll(Split(line))
  }

  lemma {:induction false} ParseNatToString(n: nat)
    ensures ParseNat(NatToString(n)) == n
  {
    if n >= 10 {
      var r := NatToString(n);
      ParseNatToString(n / 10);
      assert r[..|r| - 1] == NatToString(n / 10);
    }
  }

  /** Rendering a sample and parsing it back gives the sample. */
  lemma RenderParse(x: int)
    ensures ParseInt(Render(x)) == x
    ensures |Render(x)| > 0 && ',' !in Render(x)
  {
    var digits := NatToString(if x < 0 then -x else x);
    ParseNatToString(if x < 0 then -x else x);
    assert !IsDigit(',') && !IsDigit('-');
    if x < 0 {
      assert Render(x)[1..] == digits;
    } else {
      assert Render(x)[0] != '-';
    }
  }

  /** A character other than a comma extends the last field of a split. */
  lemma SplitSnoc(z: string, c: char)
    requires c != ','
    ensures Split(z + [c]) == Split(z)[..|Split(z)| - 1] + [Split(z)[|Split(z)| - 1] + [c]]
  {
    assert (z + [c])[..|z|] == z;
  }

  /** Appending comma-free text extends the last field of a split. */
  lemma {:induction false} SplitExtendLast(x: string, y: string)
    requires ',' !in y
    ensures Split(x + y) == Split(x)[..|Split(x)| - 1] + [Split(x)[|Split(x)| - 1] + y]
  {
    var sx := Split(x);
    var n := |sx|;
    if y == [] {
      assert x + y == x;
      assert sx[n - 1] + y == sx[n - 1];
    } else {
      var y', c := y[..|y| - 1], y[|y| - 1];
      assert y == y' + [c];
      SplitExtendLast(x, y');
      var s' := Split(x + y');
      assert s' == sx[..n - 1] + [sx[n - 1] + y'];
      assert x + y == (x + y') + [c];
      SplitSnoc(x + y', c);
      assert s'[..n - 1] == sx[..n - 1];
      assert s'[n - 1] + [c] == sx[n - 1] + y;
    }
  }

  /** A trailing comma opens a new, empty field. */
  lemma SplitComma(x: string)
    ensures Split(x + ",") == Split(x) + [[]]
  {
    assert (x + ",")[..|x|] == x;
  }

  /** Splitting a joined line of comma-free items gives back the items. */
  lemma {:induction false} SplitJoin(items: seq<string>)
    requires |items| > 0
    requires forall i :: 0 <= i < |items| ==> ',' !in items[i]
    ensures Split(Join(items)) == items
  {
    if |items| == 1 {
      SplitExtendLast([], items[0]);
      assert [] + items[0] == items[0];
    } else {
      var init, last := items[..|items| - 1], items[|items| - 1];
      var prefix := Join(init) + ",";
      SplitJoin(init);
      SplitComma(Join(init));
      SplitExtendLast(prefix, last);
      assert Join(items) == prefix + last;
      assert (init + [[]])[..|init|] == init;
      assert [] + last == last;
      assert init + [last] == items;
    }
  }

  /** The data line of a non-empty sample sequence starts and ends with a
      sample, never with a comma. */
  lemma {:induction false} JoinEnds(items: seq<string>)
    requires |items| > 0
    requires forall i :: 0 <= i < |items| ==> |items[i]| > 0 && ',' !in items[i]
    ensures |Join(items)| > 0
    ensures Join(items)[0] == items[0][0]
    ensures Join(items)[|Join(items)| - 1] == items[|items| - 1][|items[|items| - 1]| - 1]
  {
    if |items| > 1 {
      JoinEnds(items[..|items| - 1]);
    }
  }

  /** The data line reads back as exactly the recorded samples, in order, and
      has no leading or trailing comma. */
  lemma DataLineRoundTrip(s: seq<int>)
    requires |s| > 0
    ensures ParseDataLine(Join(RenderAll(s))) == s
    ensures Join(RenderAll(s))[0] != ','
    ensures Join(RenderAll(s))[|Join(RenderAll(s))| - 1] != ','
  {
    var items := RenderAll(s);
    forall i | 0 <= i < |items|
      ensures |items[i]| > 0 && ',' !in items[i] && ParseInt(items[i]) == s[i]
    {
      RenderParse(s[i]);
    }
    SplitJoin(items);
    JoinEnds(items);
    assert items[0][0] in items[0];
    var last := items[|items| - 1];
    assert last[|last| - 1] in last;
  }
}
