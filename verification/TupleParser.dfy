/** The tuple strings that `rosidl_parser/idl_parser.py` takes apart. */
module TupleParser {
  import opened MessageSerialization

  // ----- Printed tuples -----

  function Join(parts: seq<string>): string {
    if parts == [] then ""
    else if |parts| == 1 then parts[0]
    else parts[0] + ", " + Join(parts[1..])
  }

  /** Python marks a tuple of one element with a comma. */
  function Tail<T>(parts: seq<T>): string {
    if |parts| == 1 then "," else ""
  }

  function PrintTuple(parts: seq<string>): string {
    "(" + (Join(parts) + Tail(parts)) + ")"
  }

  /** Without the outer parentheses. */
  function Inner(s: string): string
    requires |s| >= 2
  {
    s[1..|s| - 1]
  }

  // ----- Strings -----

  predicate IsQuote(c: char) {
    c == '\'' || c == '"'
  }

  /** The first place of `c`, or the length. */
  function First(s: string, c: char): (j: nat)
    ensures j <= |s| && (j < |s| ==> s[j] == c)
    ensures forall k | 0 <= k < j :: s[k] != c
  {
    if s == "" || s[0] == c then 0 else First(s[1..], c) + 1
  }

  lemma FirstIs(s: string, c: char, j: nat)
    requires j <= |s| && (j < |s| ==> s[j] == c) && forall k | 0 <= k < j :: s[k] != c
    ensures First(s, c) == j
  {
  }

  /** Text between quotes of the same kind; an unclosed quote ends it all. */
  function Strings(s: string): seq<string> {
    if s == "" then []
    else if !IsQuote(s[0]) then Strings(s[1..])
    else
      var j := First(s[1..], s[0]);
      if j == |s| - 1 then [] else [s[1..j + 1]] + Strings(s[j + 2..])
  }

  lemma OtherCharacter(s: string, i: nat)
    requires i < |s| && !IsQuote(s[i])
    ensures Strings(s[i..]) == Strings(s[i + 1..])
  {
    assert s[i..][1..] == s[i + 1..];
  }

  lemma QuotedText(s: string, i: nat, j: nat)
    requires i < j <= |s| && IsQuote(s[i]) && (j < |s| ==> s[j] == s[i]) && forall k | i < k < j :: s[k] != s[i]
    ensures Strings(s[i..]) == if j == |s| then [] else [s[i + 1..j]] + Strings(s[j + 1..])
  {
    var t := s[i..];
    assert t[1..] == s[i + 1..];
    FirstIs(t[1..], s[i], j - i - 1);
    if j < |s| {
      assert t[1..j - i] == s[i + 1..j] && t[j - i + 1..] == s[j + 1..];
    }
  }

  /** `_parse_string_tuple`. */
  method ParseStringTuple(inner: string) returns (result: seq<string>)
    ensures result == Strings(inner)
  {
    result := [];
    var i := 0;
    assert inner[0..] == inner;
    while i < |inner|
      invariant 0 <= i <= |inner| && result + Strings(inner[i..]) == Strings(inner)
    {
      if IsQuote(inner[i]) {
        var j := i + 1;
        while j < |inner| && inner[j] != inner[i]
          invariant i < j <= |inner| && forall k | i < k < j :: inner[k] != inner[i]
        {
          j := j + 1;
        }
        QuotedText(inner, i, j);
        if j == |inner| {
          assert result + [] == result;
          return;
        }
        assert result + ([inner[i + 1..j]] + Strings(inner[j + 1..])) == result + [inner[i + 1..j]] + Strings(inner[j + 1..]);
        result := result + [inner[i + 1..j]];
        i := j + 1;
      } else {
        OtherCharacter(inner, i);
        i := i + 1;
      }
    }
    assert inner[|inner|..] == "";
  }

  /** Other characters in front do not count. */
  lemma {:induction false} OthersSkipped(before: string, rest: string)
    requires forall i | 0 <= i < |before| :: !IsQuote(before[i])
    ensures Strings(before + rest) == Strings(rest)
  {
    if before == "" {
      assert before + rest == rest;
    } else {
      assert (before + rest)[1..] == before[1..] + rest;
      OthersSkipped(before[1..], rest);
    }
  }

  /** A quote that is not closed ends the list, and the text behind it is dropped. */
  lemma UnclosedDropped(quote: char, text: string)
    requires IsQuote(quote) && quote !in text
    ensures Strings([quote] + text) == []
  {
    var s := [quote] + text;
    assert s[1..] == text;
    FirstIs(text, quote, |text|);
  }

  datatype Quoted = Quoted(text: string, quote: char)

  predicate Free(x: Quoted) {
    x.quote !in x.text
  }

  function Written(x: Quoted): string {
    [x.quote] + x.text + [x.quote]
  }

  function AllWritten(xs: seq<Quoted>): seq<string> {
    seq(|xs|, i requires 0 <= i < |xs| => Written(xs[i]))
  }

  function Texts(xs: seq<Quoted>): seq<string> {
    seq(|xs|, i requires 0 <= i < |xs| => xs[i].text)
  }

  predicate ProperQuotes(xs: seq<Quoted>) {
    forall i | 0 <= i < |xs| :: xs[i].quote == '\'' || xs[i].quote == '"'
  }

  /** The first string ends at the first quote of its kind. */
  lemma FirstString(x: Quoted, rest: string)
    requires IsQuote(x.quote)
    ensures Free(x) ==> Strings(Written(x) + rest) == [x.text] + Strings(rest)
    ensures !Free(x) ==> Strings(Written(x) + rest) != [] && Strings(Written(x) + rest)[0] != x.text
  {
    var s, j := Written(x) + rest, First(x.text, x.quote);
    assert s[0] == x.quote && s[1..] == x.text + [x.quote] + rest;
    FirstIs(s[1..], x.quote, j);
    assert s[1..j + 1] == x.text[..j];
    if Free(x) {
      assert x.text[..j] == x.text && s[j + 2..] == rest;
    }
  }

  lemma SeparatorSkipped(s: string)
    ensures Strings(", " + s) == Strings(s)
  {
    assert (", " + s)[1..] == " " + s && (" " + s)[1..] == s;
  }

  lemma TailHasNoStrings<T>(xs: seq<T>)
    ensures Strings(Tail(xs)) == []
  {
    if |xs| == 1 {
      assert Tail(xs)[1..] == "";
    }
  }

  lemma SameHead<T>(x: T, a: seq<T>, b: seq<T>)
    ensures [x] + a == [x] + b <==> a == b
  {
    if [x] + a == [x] + b {
      assert ([x] + a)[1..] == a && ([x] + b)[1..] == b;
    }
  }

  predicate AllFree(xs: seq<Quoted>) {
    forall i | 0 <= i < |xs| :: Free(xs[i])
  }

  lemma AllFreeFirst(xs: seq<Quoted>)
    requires xs != []
    ensures AllFree(xs) <==> Free(xs[0]) && AllFree(xs[1..])
  {
    assert forall i | 0 <= i < |xs[1..]| :: xs[1..][i] == xs[i + 1];
  }

  lemma JoinFirst(xs: seq<Quoted>, tail: string)
    requires xs != []
    ensures Join(AllWritten(xs)) + tail ==
            Written(xs[0]) + if |xs| == 1 then tail else ", " + (Join(AllWritten(xs[1..])) + tail)
    ensures Texts(xs) == [xs[0].text] + Texts(xs[1..])
  {
    assert AllWritten(xs)[1..] == AllWritten(xs[1..]);
  }

  lemma {:induction false} WrittenStringsIff(xs: seq<Quoted>, tail: string)
    requires ProperQuotes(xs) && Strings(tail) == []
    ensures Strings(Join(AllWritten(xs)) + tail) == Texts(xs) <==> AllFree(xs)
    decreases |xs|
  {
    if xs == [] {
      assert Join(AllWritten(xs)) + tail == tail;
    } else {
      var more := xs[1..];
      var rest := if |xs| == 1 then tail else ", " + (Join(AllWritten(more)) + tail);
      JoinFirst(xs, tail);
      FirstString(xs[0], rest);
      WrittenStringsIff(more, tail);
      if |xs| > 1 {
        SeparatorSkipped(Join(AllWritten(more)) + tail);
      } else {
        assert Join(AllWritten(more)) + tail == tail;
      }
      SameHead(xs[0].text, Strings(rest), Texts(more));
      AllFreeFirst(xs);
    }
  }

  /** Parsing a printed tuple of strings gives the strings back exactly if none holds its own quote. */
  lemma StringTupleRoundTripIff(xs: seq<Quoted>)
    requires ProperQuotes(xs)
    ensures Strings(Inner(PrintTuple(AllWritten(xs)))) == Texts(xs) <==> AllFree(xs)
  {
    assert Inner(PrintTuple(AllWritten(xs))) == Join(AllWritten(xs)) + Tail(AllWritten(xs));
    TailHasNoStrings(AllWritten(xs));
    WrittenStringsIff(xs, Tail(AllWritten(xs)));
  }

  // ----- Parts between commas -----

  predicate IsSpace(c: char) {
    || '\t' <= c <= '\r' || '\U{001C}' <= c <= ' ' || c == '\U{0085}' || c == '\U{00A0}' || c == '\U{1680}'
    || '\U{2000}' <= c <= '\U{200A}' || c == '\U{2028}' || c == '\U{2029}' || c == '\U{202F}' || c == '\U{205F}'
    || c == '\U{3000}'
  }

  function StripLeft(s: string): string {
    if s != "" && IsSpace(s[0]) then StripLeft(s[1..]) else s
  }

  function StripRight(s: string): string {
    if s != "" && IsSpace(s[|s| - 1]) then StripRight(s[..|s| - 1]) else s
  }

  function Strip(s: string): string {
    StripRight(StripLeft(s))
  }

  /** `split(',')`. */
  function Split(s: string): (parts: seq<string>)
    ensures parts != []
  {
    var j := First(s, ',');
    if j == |s| then [s] else [s[..j]] + Split(s[j + 1..])
  }

  predicate AllSpace(s: string) {
    forall i | 0 <= i < |s| :: IsSpace(s[i])
  }

  /** A stripped string is the given one without the space around it. */
  lemma {:induction false} StripIs(s: string) returns (before: string, after: string)
    ensures s == before + Strip(s) + after && AllSpace(before) && AllSpace(after)
    ensures Strip(s) != "" ==> !IsSpace(Strip(s)[0]) && !IsSpace(Strip(s)[|Strip(s)| - 1])
  {
    before := StripLeftIs(s);
    after := StripRightIs(StripLeft(s));
    if Strip(s) != "" {
      assert Strip(s)[0] == StripLeft(s)[0];
    }
  }

  lemma {:induction false} StripLeftIs(s: string) returns (before: string)
    ensures s == before + StripLeft(s) && AllSpace(before) && (StripLeft(s) != "" ==> !IsSpace(StripLeft(s)[0]))
  {
    if s != "" && IsSpace(s[0]) {
      before := StripLeftIs(s[1..]);
      before := [s[0]] + before;
    } else {
      before := "";
    }
  }

  lemma {:induction false} StripRightIs(s: string) returns (after: string)
    ensures s == StripRight(s) + after && AllSpace(after)
    ensures StripRight(s) != "" ==> !IsSpace(StripRight(s)[|StripRight(s)| - 1])
  {
    if s != "" && IsSpace(s[|s| - 1]) {
      after := StripRightIs(s[..|s| - 1]);
      after := after + [s[|s| - 1]];
    } else {
      after := "";
    }
  }

  function WithCommas(parts: seq<string>): string {
    if parts == [] then "" else if |parts| == 1 then parts[0] else parts[0] + "," + WithCommas(parts[1..])
  }

  /** Splitting loses nothing: with commas between them the parts, which hold none, are the string again. */
  lemma {:induction false} SplitIs(s: string)
    ensures WithCommas(Split(s)) == s
    ensures forall i | 0 <= i < |Split(s)| :: ',' !in Split(s)[i]
    decreases |s|
  {
    var j := First(s, ',');
    if j < |s| {
      SplitIs(s[j + 1..]);
      assert Split(s)[1..] == Split(s[j + 1..]);
      assert s == s[..j] + "," + s[j + 1..];
    }
  }

  function StripAll(parts: seq<string>): seq<string> {
    seq(|parts|, i requires 0 <= i < |parts| => Strip(parts[i]))
  }

  function Parts(inner: string): seq<string> {
    StripAll(Split(inner))
  }

  /** Neither commas nor outer space. */
  predicate IsBare(p: string) {
    p != "" && ',' !in p && !IsSpace(p[0]) && !IsSpace(p[|p| - 1])
  }

  lemma CommaEndsPart(p: string, rest: string)
    requires ',' !in p
    ensures Split(p + "," + rest) == [p] + Split(rest)
    ensures Split(p) == [p]
  {
    var s := p + "," + rest;
    FirstIs(s, ',', |p|);
    FirstIs(p, ',', |p|);
    assert s[..|p|] == p && s[|p| + 1..] == rest;
  }

  lemma LeadingSpaceGoes(s: string)
    ensures Parts(" " + s) == Parts(s)
  {
    var t, j := " " + s, First(s, ',');
    FirstIs(t, ',', j + 1);
    assert t[..j + 1] == " " + s[..j] && t[1..] == s;
    assert (" " + s[..j])[1..] == s[..j];
    assert Strip(t[..j + 1]) == Strip(s[..j]);
    assert Split(t)[1..] == Split(s)[1..] by {
      if j < |s| {
        assert t[j + 2..] == s[j + 1..];
      }
    }
    assert Split(t)[0] == t[..j + 1] && Split(s)[0] == s[..j];
    assert forall i | 0 < i < |Split(s)| :: Split(t)[i] == Split(t)[1..][i - 1] && Split(s)[i] == Split(s)[1..][i - 1];
  }

  lemma StripAllFirst(p: string, more: seq<string>)
    requires IsBare(p)
    ensures StripAll([p] + more) == [p] + StripAll(more)
  {
  }

  lemma LastPart(p: string, trailing: bool)
    requires IsBare(p)
    ensures Parts(p + if trailing then "," else "") == [p] + if trailing then [""] else []
  {
    CommaEndsPart(p, "");
    assert p + "," + "" == p + "," && p + "" == p;
    StripAllFirst(p, if trailing then [""] else []);
    assert Split("") == [""] && StripAll([""]) == [""] && [p] + [] == [p];
  }

  lemma FirstPart(p: string, rest: string)
    requires IsBare(p)
    ensures Parts(p + ", " + rest) == [p] + Parts(rest)
  {
    assert p + ", " + rest == p + "," + (" " + rest);
    CommaEndsPart(p, " " + rest);
    StripAllFirst(p, Split(" " + rest));
    LeadingSpaceGoes(rest);
  }

  /** Splitting a printed tuple gives its parts, and an empty one more after a trailing comma. */
  lemma {:induction false} PrintedParts(parts: seq<string>, trailing: bool)
    requires parts != [] && forall i | 0 <= i < |parts| :: IsBare(parts[i])
    ensures Parts(Join(parts) + if trailing then "," else "") == parts + if trailing then [""] else []
    decreases |parts|
  {
    var tail, p, more := if trailing then "," else "", parts[0], parts[1..];
    var extra := if trailing then [""] else [];
    assert parts == [p] + more;
    if more == [] {
      LastPart(p, trailing);
    } else {
      assert Join(parts) + tail == p + ", " + (Join(more) + tail);
      FirstPart(p, Join(more) + tail);
      PrintedParts(more, trailing);
      assert [p] + (more + extra) == parts + extra;
    }
  }

  // ----- Numbers -----

  datatype Item = IntItem(i: int) | FloatItem(literal: string) | TextItem(text: string)

  /** How Python reads a number: `int`, else `float`, else the text itself. */
  type Reader = string -> Item

  /** Plain decimals are integers; how other literals are read is left open. */
  ghost predicate ReadsDecimals(read: Reader) {
    forall s: string | IsDecimal(s) :: read(s) == IntItem(Parse(s))
  }

  function Numbers(parts: seq<string>, read: Reader): seq<Item> {
    if parts == [] then []
    else
      var last := parts[|parts| - 1];
      Numbers(parts[..|parts| - 1], read) + if last == "" then [] else [read(last)]
  }

  /** The numeric branch of `_parse_tuple_string`. */
  method ParseNumberTuple(inner: string, read: Reader) returns (result: seq<Item>)
    ensures result == Numbers(Parts(inner), read)
  {
    var parts := Parts(inner);
    result := [];
    for k := 0 to |parts|
      invariant result == Numbers(parts[..k], read)
    {
      assert parts[..k + 1][..k] == parts[..k];
      if parts[k] == "" {
        continue;
      }
      result := result + [read(parts[k])];
    }
    assert parts[..|parts|] == parts;
  }

  function Printed(xs: seq<int>): seq<string> {
    seq(|xs|, i requires 0 <= i < |xs| => Print(xs[i]))
  }

  function Items(xs: seq<int>): seq<Item> {
    seq(|xs|, i requires 0 <= i < |xs| => IntItem(xs[i]))
  }

  lemma DecimalIsBare(s: string)
    requires IsDecimal(s)
    ensures IsBare(s)
  {
    var digits := if Negative(s) then s[1..] else s;
    forall k | 0 <= k < |s|
      ensures s[k] != ',' && !IsSpace(s[k])
    {
      if !(Negative(s) && k == 0) {
        assert IsDigit(digits[if Negative(s) then k - 1 else k]);
      }
    }
  }

  lemma NumbersLast(parts: seq<string>, last: string, read: Reader)
    ensures Numbers(parts + [last], read) == Numbers(parts, read) + if last == "" then [] else [read(last)]
  {
    assert (parts + [last])[..|parts|] == parts;
  }

  lemma {:induction false} NumbersAre(parts: seq<string>, items: seq<Item>, read: Reader)
    requires |parts| == |items| && forall i | 0 <= i < |parts| :: parts[i] != "" && read(parts[i]) == items[i]
    ensures Numbers(parts, read) == items
  {
    if parts != [] {
      var n := |parts| - 1;
      NumbersAre(parts[..n], items[..n], read);
      assert items == items[..n] + [items[n]];
    }
  }

  /** Parsing a printed tuple of integers gives the integers back, one or none included. */
  lemma IntTupleRoundTrip(xs: seq<int>, read: Reader)
    requires ReadsDecimals(read)
    ensures Numbers(Parts(Inner(PrintTuple(Printed(xs)))), read) == Items(xs)
  {
    var parts := Printed(xs);
    assert Inner(PrintTuple(parts)) == Join(parts) + Tail(parts);
    forall i | 0 <= i < |xs|
      ensures IsBare(parts[i]) && read(parts[i]) == IntItem(xs[i])
    {
      ParsePrint(xs[i]);
      DecimalIsBare(Print(xs[i]));
    }
    NumbersAre(parts, Items(xs), read);
    if xs == [] {
      assert Split("") == [""] && StripAll([""]) == [""];
      NumbersLast([], "", read);
      assert [] + [""] == [""];
    } else {
      PrintedParts(parts, |xs| == 1);
      NumbersLast(parts, "", read);
      assert parts + [] == parts;
    }
  }

  // ----- Booleans -----

  function Bools(parts: seq<string>): seq<bool> {
    seq(|parts|, i requires 0 <= i < |parts| => parts[i] == "True")
  }

  function PrintedBools(bs: seq<bool>): seq<string> {
    seq(|bs|, i requires 0 <= i < |bs| => if bs[i] then "True" else "False")
  }

  /** Empty parts count as false here, so tuples of one boolean, and of none, come back too long. */
  lemma BoolTupleRoundTripIff(bs: seq<bool>)
    ensures Bools(Parts(Inner(PrintTuple(PrintedBools(bs))))) == bs <==> |bs| >= 2
  {
    var parts := PrintedBools(bs);
    assert Inner(PrintTuple(parts)) == Join(parts) + Tail(parts);
    if bs == [] {
      assert Split("") == [""];
    } else {
      PrintedParts(parts, |bs| == 1);
      if |bs| >= 2 {
        assert parts + [] == parts;
      }
    }
  }

  /** What they come back as. */
  lemma ShortBoolTuples(b: bool)
    ensures Bools(Parts(Inner(PrintTuple(PrintedBools([b]))))) == [b, false]
    ensures Bools(Parts(Inner(PrintTuple(PrintedBools([]))))) == [false]
  {
    var parts := PrintedBools([b]);
    assert Inner(PrintTuple(parts)) == Join(parts) + Tail(parts);
    PrintedParts(parts, true);
    assert Inner(PrintTuple([])) == "" && Split("") == [""];
  }
}
