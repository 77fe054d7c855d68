/** The conversions of `lib/message_serialization.js`, on finite trees of JavaScript values. */
module MessageSerialization {
  import opened JavaScript

  // ----- Decimal numbers -----

  function Digit(d: nat): char
    requires d < 10
  {
    '0' + d as char
  }

  predicate IsDigit(c: char) {
    '0' <= c <= '9'
  }

  /** `toString` of a bigint. */
  function PrintNat(n: nat): string {
    (if n < 10 then "" else PrintNat(n / 10)) + [Digit(n % 10)]
  }

  function Print(i: int): string {
    if i < 0 then "-" + PrintNat(-i) else PrintNat(i)
  }

  predicate AllDigits(s: string) {
    forall i | 0 <= i < |s| :: IsDigit(s[i])
  }

  function ParseNat(s: string): nat
    requires AllDigits(s)
  {
    if s == "" then 0 else 10 * ParseNat(s[..|s| - 1]) + (s[|s| - 1] - '0') as nat
  }

  predicate Negative(s: string) {
    s != "" && s[0] == '-'
  }

  /** An optional sign and at least one digit. */
  predicate IsDecimal(s: string) {
    var digits := if Negative(s) then s[1..] else s;
    digits != "" && AllDigits(digits)
  }

  /** `BigInt(s)`. */
  function Parse(s: string): int
    requires IsDecimal(s)
  {
    if Negative(s) then -(ParseNat(s[1..]) as int) else ParseNat(s)
  }

  lemma {:induction false} ParsePrintNat(n: nat)
    ensures PrintNat(n) != "" && AllDigits(PrintNat(n)) && ParseNat(PrintNat(n)) == n
  {
    var s := PrintNat(n);
    if n < 10 {
      assert s == [Digit(n)] && s[..0] == "";
    } else {
      ParsePrintNat(n / 10);
      assert s[..|s| - 1] == PrintNat(n / 10);
    }
  }

  lemma {:induction false} NoLeadingZero(n: nat)
    requires n > 0
    ensures PrintNat(n)[0] != '0'
  {
    if n >= 10 {
      NoLeadingZero(n / 10);
    }
  }

  /** Printing an integer and parsing it gives it back. */
  lemma ParsePrint(i: int)
    ensures IsDecimal(Print(i)) && Parse(Print(i)) == i
  {
    ParsePrintNat(if i < 0 then -i else i);
    if i < 0 {
      assert Print(i)[1..] == PrintNat(-i);
    }
  }

  /** The regular expression `^-?\d+n$`. */
  predicate LooksBig(s: string) {
    s != "" && s[|s| - 1] == 'n' && IsDecimal(s[..|s| - 1])
  }

  lemma PrintLooksBig(i: int)
    ensures LooksBig(Print(i) + "n") && Parse((Print(i) + "n")[..|Print(i)|]) == i
  {
    ParsePrint(i);
    assert (Print(i) + "n")[..|Print(i)|] == Print(i);
  }

  // ----- The conversions -----

  const PROTO := "__proto__"

  function ToPlainArrays(v: Value): Value {
    match v
    case TypedArray(scalars) => Array(seq(|scalars|, i requires 0 <= i < |scalars| => FromScalar(scalars[i])))
    case Array(elems) => Array(seq(|elems|, i requires 0 <= i < |elems| => ToPlainArrays(elems[i])))
    case Object(entries) => Object(PlainEntries(entries))
    case _ => v
  }

  /** Assigning to `__proto__` of the copy sets no key. */
  function PlainEntries(entries: seq<Entry>): seq<Entry> {
    if entries == [] then []
    else
      var last := entries[|entries| - 1];
      PlainEntries(entries[..|entries| - 1]) + if last.key == PROTO then [] else [Entry(last.key, ToPlainArrays(last.value))]
  }

  function SafeScalar(v: Value): Value {
    match v
    case BigInt(i) => Str(Print(i) + "n")
    case Number(PosInf) => Str("Infinity")
    case Number(NegInf) => Str("-Infinity")
    case Number(NaN) => Str("NaN")
    case Function(_) => Str("[Function]")
    case _ => v
  }

  function ToJSONSafe(v: Value): Value {
    match v
    case TypedArray(scalars) => Array(seq(|scalars|, i requires 0 <= i < |scalars| => SafeScalar(FromScalar(scalars[i]))))
    case Array(elems) => Array(seq(|elems|, i requires 0 <= i < |elems| => ToJSONSafe(elems[i])))
    case Object(entries) => Object(SafeEntries(entries))
    case _ => SafeScalar(v)
  }

  function SafeEntries(entries: seq<Entry>): seq<Entry> {
    if entries == [] then []
    else
      var last := entries[|entries| - 1];
      SafeEntries(entries[..|entries| - 1]) + if last.key == PROTO then [] else [Entry(last.key, ToJSONSafe(last.value))]
  }

  predicate Reserved(key: string) {
    key == PROTO || key == "constructor" || key == "prototype"
  }

  /** A typed array is taken for an object with its indices as keys. */
  function ReviveBigInts(v: Value): Value {
    match v
    case Str(s) => if LooksBig(s) then BigInt(Parse(s[..|s| - 1])) else v
    case TypedArray(scalars) =>
      Object(seq(|scalars|, i requires 0 <= i < |scalars| => Entry(PrintNat(i), FromScalar(scalars[i]))))
    case Array(elems) => Array(seq(|elems|, i requires 0 <= i < |elems| => ReviveBigInts(elems[i])))
    case Object(entries) => Object(ReviveEntries(entries))
    case _ => v
  }

  function ReviveEntries(entries: seq<Entry>): seq<Entry> {
    if entries == [] then []
    else
      var last := entries[|entries| - 1];
      ReviveEntries(entries[..|entries| - 1]) + if Reserved(last.key) then [] else [Entry(last.key, ReviveBigInts(last.value))]
  }

  // ----- What the conversions do, case by case -----

  /** Non-finite numbers and functions become these words. */
  lemma LostValuesBecomeWords(id: nat)
    ensures ToJSONSafe(Number(PosInf)) == Str("Infinity") && ToJSONSafe(Number(NegInf)) == Str("-Infinity")
    ensures ToJSONSafe(Number(NaN)) == Str("NaN") && ToJSONSafe(Function(id)) == Str("[Function]")
  {
  }

  /** Arrays keep their elements in place; a typed array becomes a plain one of its scalars. */
  lemma ElementsKept(elems: seq<Value>, scalars: seq<Scalar>, i: nat)
    ensures ToPlainArrays(Array(elems)).Array? && |ToPlainArrays(Array(elems)).elems| == |elems|
    ensures ToJSONSafe(Array(elems)).Array? && |ToJSONSafe(Array(elems)).elems| == |elems|
    ensures ToPlainArrays(TypedArray(scalars)).Array? && |ToPlainArrays(TypedArray(scalars)).elems| == |scalars|
    ensures ToJSONSafe(TypedArray(scalars)).Array? && |ToJSONSafe(TypedArray(scalars)).elems| == |scalars|
    ensures i < |elems| ==> ToPlainArrays(Array(elems)).elems[i] == ToPlainArrays(elems[i])
                            && ToJSONSafe(Array(elems)).elems[i] == ToJSONSafe(elems[i])
    ensures i < |scalars| ==> ToPlainArrays(TypedArray(scalars)).elems[i] == FromScalar(scalars[i])
                              && ToJSONSafe(TypedArray(scalars)).elems[i] == ToJSONSafe(FromScalar(scalars[i]))
  {
  }

  /** Objects keep their keys in place, except for `__proto__`. */
  lemma EntriesKept(entries: seq<Entry>)
    requires forall i | 0 <= i < |entries| :: entries[i].key != PROTO
    ensures |PlainEntries(entries)| == |SafeEntries(entries)| == |entries|
    ensures forall i | 0 <= i < |entries| :: PlainEntries(entries)[i] == Entry(entries[i].key, ToPlainArrays(entries[i].value))
    ensures forall i | 0 <= i < |entries| :: SafeEntries(entries)[i] == Entry(entries[i].key, ToJSONSafe(entries[i].value))
  {
    PlainEntriesKept(entries);
    SafeEntriesKept(entries);
  }

  lemma {:induction false} PlainEntriesKept(entries: seq<Entry>)
    requires forall i | 0 <= i < |entries| :: entries[i].key != PROTO
    ensures |PlainEntries(entries)| == |entries|
    ensures forall i | 0 <= i < |entries| :: PlainEntries(entries)[i] == Entry(entries[i].key, ToPlainArrays(entries[i].value))
  {
    if entries != [] {
      var init := entries[..|entries| - 1];
      PlainEntriesKept(init);
      assert forall i | 0 <= i < |init| :: init[i] == entries[i];
    }
  }

  lemma {:induction false} SafeEntriesKept(entries: seq<Entry>)
    requires forall i | 0 <= i < |entries| :: entries[i].key != PROTO
    ensures |SafeEntries(entries)| == |entries|
    ensures forall i | 0 <= i < |entries| :: SafeEntries(entries)[i] == Entry(entries[i].key, ToJSONSafe(entries[i].value))
  {
    if entries != [] {
      var init := entries[..|entries| - 1];
      SafeEntriesKept(init);
      assert forall i | 0 <= i < |init| :: init[i] == entries[i];
    }
  }

  /** An optional minus, at least one digit, and a final `n`. */
  predicate Spelled(s: string, negative: bool, digits: string) {
    && digits != "" && (forall i | 0 <= i < |digits| :: '0' <= digits[i] <= '9')
    && s == (if negative then ['-'] else []) + digits + ['n']
  }

  lemma SpelledLooksBig(s: string, negative: bool, digits: string)
    requires Spelled(s, negative, digits)
    ensures LooksBig(s)
  {
    var body := s[..|s| - 1];
    if negative {
      assert body[1..] == digits;
    } else {
      assert body == digits && digits[0] != '-';
    }
  }

  lemma LooksBigSpelled(s: string) returns (negative: bool, digits: string)
    requires LooksBig(s)
    ensures Spelled(s, negative, digits)
  {
    var body := s[..|s| - 1];
    negative := Negative(body);
    digits := if negative then body[1..] else body;
    assert s == body + ['n'];
    assert body == (if negative then ['-'] else []) + digits;
  }

  /** The pattern says just that. */
  lemma LooksBigIff(s: string)
    ensures LooksBig(s) <==> exists negative: bool, digits: string :: Spelled(s, negative, digits)
  {
    if LooksBig(s) {
      var negative, digits := LooksBigSpelled(s);
    }
    if negative: bool, digits: string :| Spelled(s, negative, digits) {
      SpelledLooksBig(s, negative, digits);
    }
  }

  /** Leading zeros do not matter. */
  lemma {:induction false} LeadingZero(s: string)
    requires AllDigits(s)
    ensures AllDigits("0" + s) && ParseNat("0" + s) == ParseNat(s)
  {
    var z := "0" + s;
    forall i | 0 <= i < |z|
      ensures IsDigit(z[i])
    {
      assert i > 0 ==> z[i] == s[i - 1];
    }
    if s == "" {
      assert z[..0] == "";
    } else {
      var init := s[..|s| - 1];
      assert z[..|z| - 1] == "0" + init;
      LeadingZero(init);
    }
  }

  /** No object anywhere in the value has a key that could reach into its prototype. */
  predicate Harmless(v: Value) {
    match v
    case Array(elems) => forall i | 0 <= i < |elems| :: Harmless(elems[i])
    case Object(entries) => HarmlessEntries(entries)
    case _ => true
  }

  predicate HarmlessEntries(entries: seq<Entry>) {
    forall i | 0 <= i < |entries| :: HarmlessKey(entries[i].key) && Harmless(entries[i].value)
  }

  predicate HarmlessKey(key: string) {
    key != "__proto__" && key != "constructor" && key != "prototype"
  }

  /** What comes out of `reviveBigInts` is harmless, whatever a peer has sent. */
  lemma {:induction false} RevivedIsHarmless(v: Value)
    ensures Harmless(ReviveBigInts(v))
  {
    match v
    case TypedArray(scalars) =>
      forall i | 0 <= i < |scalars|
        ensures HarmlessKey(PrintNat(i))
      {
        NumbersAreHarmless(i);
      }
    case Array(elems) =>
      forall i | 0 <= i < |elems|
        ensures Harmless(ReviveBigInts(elems[i]))
      {
        RevivedIsHarmless(elems[i]);
      }
    case Object(entries) => RevivedEntriesAreHarmless(entries);
    case _ =>
  }

  lemma NumbersAreHarmless(n: nat)
    ensures HarmlessKey(PrintNat(n))
  {
    ParsePrintNat(n);
    assert IsDigit(PrintNat(n)[0]);
    assert "__proto__"[0] == '_' && "constructor"[0] == 'c' && "prototype"[0] == 'p';
  }

  lemma {:induction false} RevivedEntriesAreHarmless(entries: seq<Entry>)
    ensures HarmlessEntries(ReviveEntries(entries))
  {
    if entries != [] {
      RevivedEntriesAreHarmless(entries[..|entries| - 1]);
      RevivedIsHarmless(entries[|entries| - 1].value);
    }
  }

  /** All other keys stay, in place. */
  lemma {:induction false} HarmlessKeysRevived(entries: seq<Entry>)
    requires forall i | 0 <= i < |entries| :: HarmlessKey(entries[i].key)
    ensures |ReviveEntries(entries)| == |entries|
    ensures forall i | 0 <= i < |entries| :: ReviveEntries(entries)[i] == Entry(entries[i].key, ReviveBigInts(entries[i].value))
  {
    if entries != [] {
      var init := entries[..|entries| - 1];
      HarmlessKeysRevived(init);
      assert forall i | 0 <= i < |init| :: init[i] == entries[i];
    }
  }

  /** A string becomes a bigint if it looks like one, and any other stays. */
  lemma RevivedString(s: string)
    ensures LooksBig(s) ==> ReviveBigInts(Str(s)) == BigInt(Parse(s[..|s| - 1]))
    ensures !LooksBig(s) ==> ReviveBigInts(Str(s)) == Str(s)
  {
  }

  // ----- Round trip -----

  /** Nothing that JSON loses, no string that looks like a bigint, no reserved key that is copied. */
  predicate Clean(v: Value) {
    match v
    case Number(n) => n.Finite?
    case Str(s) => !LooksBig(s)
    case Function(_) => false
    case TypedArray(scalars) => forall i | 0 <= i < |scalars| :: scalars[i].NumberScalar? ==> scalars[i].n.Finite?
    case Array(elems) => forall i | 0 <= i < |elems| :: Clean(elems[i])
    case Object(entries) => CleanEntries(entries)
    case _ => true
  }

  predicate CleanEntries(entries: seq<Entry>) {
    forall i | 0 <= i < |entries| ::
      entries[i].key == PROTO || (!Reserved(entries[i].key) && Clean(entries[i].value))
  }

  lemma ScalarRoundTrip(v: Value)
    requires !v.TypedArray? && !v.Array? && !v.Object?
    ensures ReviveBigInts(SafeScalar(v)) == v <==> Clean(v)
  {
    if v.BigInt? {
      PrintLooksBig(v.i);
      assert (Print(v.i) + "n")[..|Print(v.i) + "n"| - 1] == (Print(v.i) + "n")[..|Print(v.i)|];
    }
  }

  /** Reviving what was made safe gives the plain value back exactly for clean values. */
  lemma {:induction false} RoundTripIff(v: Value)
    ensures ReviveBigInts(ToJSONSafe(v)) == ToPlainArrays(v) <==> Clean(v)
  {
    match v
    case TypedArray(scalars) =>
      var a, b := ReviveBigInts(ToJSONSafe(v)).elems, ToPlainArrays(v).elems;
      forall i | 0 <= i < |scalars|
        ensures a[i] == b[i] <==> (scalars[i].NumberScalar? ==> scalars[i].n.Finite?)
      {
        ScalarRoundTrip(FromScalar(scalars[i]));
      }
      assert a == b <==> forall i | 0 <= i < |scalars| :: a[i] == b[i];
    case Array(elems) =>
      var a, b := ReviveBigInts(ToJSONSafe(v)).elems, ToPlainArrays(v).elems;
      forall i | 0 <= i < |elems|
        ensures a[i] == b[i] <==> Clean(elems[i])
      {
        RoundTripIff(elems[i]);
      }
      assert a == b <==> forall i | 0 <= i < |elems| :: a[i] == b[i];
    case Object(entries) => EntriesRoundTripIff(entries);
    case _ => ScalarRoundTrip(v);
  }

  /** A string can look like a bigint: the safe forms are the same, so it comes back as that bigint. */
  lemma StringsBecomeBig(i: int)
    ensures ToJSONSafe(Str(Print(i) + "n")) == ToJSONSafe(BigInt(i))
    ensures ReviveBigInts(ToJSONSafe(Str(Print(i) + "n"))) == BigInt(i) != ToPlainArrays(Str(Print(i) + "n"))
  {
    PrintLooksBig(i);
    assert (Print(i) + "n")[..|Print(i) + "n"| - 1] == (Print(i) + "n")[..|Print(i)|];
  }

  function RevivedSafe(entries: seq<Entry>): seq<Entry> {
    ReviveEntries(SafeEntries(entries))
  }

  lemma {:induction false} EntriesRoundTripIff(entries: seq<Entry>)
    ensures RevivedSafe(entries) == PlainEntries(entries) <==> CleanEntries(entries)
    ensures |RevivedSafe(entries)| <= |PlainEntries(entries)|
  {
    if entries != [] {
      var init, last := entries[..|entries| - 1], entries[|entries| - 1];
      EntriesRoundTripIff(init);
      RoundTripIff(last.value);
      LastRevived(init, last);
      assert entries == init + [last];
      var x, y := Entry(last.key, ReviveBigInts(ToJSONSafe(last.value))), Entry(last.key, ToPlainArrays(last.value));
      Extended(RevivedSafe(init), x, !Reserved(last.key), PlainEntries(init), y, last.key != PROTO);
      assert CleanEntries(entries) <==>
             CleanEntries(init) && (last.key == PROTO || (!Reserved(last.key) && Clean(last.value)));
    }
  }

  lemma Extended(a: seq<Entry>, x: Entry, keepX: bool, b: seq<Entry>, y: Entry, keepY: bool)
    requires |a| <= |b| && (keepX ==> keepY)
    ensures a + (if keepX then [x] else []) == b + (if keepY then [y] else []) <==>
            a == b && (keepY ==> keepX && x == y)
  {
    assert a + [] == a && b + [] == b;
    if keepX {
      LastsAgree(a, x, b, y);
    }
  }

  lemma LastRevived(init: seq<Entry>, last: Entry)
    ensures RevivedSafe(init + [last]) == RevivedSafe(init) +
              if Reserved(last.key) then [] else [Entry(last.key, ReviveBigInts(ToJSONSafe(last.value)))]
    ensures PlainEntries(init + [last]) == PlainEntries(init) +
              if last.key == PROTO then [] else [Entry(last.key, ToPlainArrays(last.value))]
  {
    assert (init + [last])[..|init|] == init;
    var safe := Entry(last.key, ToJSONSafe(last.value));
    if last.key == PROTO {
      assert SafeEntries(init + [last]) == SafeEntries(init);
    } else {
      assert SafeEntries(init + [last]) == SafeEntries(init) + [safe];
      assert (SafeEntries(init) + [safe])[..|SafeEntries(init)|] == SafeEntries(init);
    }
  }

  lemma LastsAgree(a: seq<Entry>, x: Entry, b: seq<Entry>, y: Entry)
    ensures a + [x] == b + [y] <==> a == b && x == y
  {
    if a + [x] == b + [y] {
      assert (a + [x])[..|a|] == a && (b + [y])[..|b|] == b;
      assert (a + [x])[|a|] == x && (b + [y])[|b|] == y;
    }
  }

  // ----- Safe values -----

  /** What JSON can carry. */
  predicate JsonSafe(v: Value) {
    match v
    case BigInt(_) => false
    case Number(n) => n.Finite?
    case Function(_) => false
    case TypedArray(_) => false
    case Array(elems) => forall i | 0 <= i < |elems| :: JsonSafe(elems[i])
    case Object(entries) => SafelyEntered(entries)
    case _ => true
  }

  predicate SafelyEntered(entries: seq<Entry>) {
    forall i | 0 <= i < |entries| :: entries[i].key != PROTO && JsonSafe(entries[i].value)
  }

  /** What `toJSONSafe` returns has no bigint, function, typed array or non-finite number left. */
  lemma {:induction false} SafeIsSafe(v: Value)
    ensures JsonSafe(ToJSONSafe(v))
  {
    match v
    case Array(elems) =>
      forall i | 0 <= i < |elems|
        ensures JsonSafe(ToJSONSafe(elems[i]))
      {
        SafeIsSafe(elems[i]);
      }
    case Object(entries) => SafeEntriesAreSafe(entries);
    case _ =>
  }

  lemma {:induction false} SafeEntriesAreSafe(entries: seq<Entry>)
    ensures SafelyEntered(SafeEntries(entries))
  {
    if entries != [] {
      SafeEntriesAreSafe(entries[..|entries| - 1]);
      SafeIsSafe(entries[|entries| - 1].value);
    }
  }

  /** The values that `toJSONSafe` leaves alone are exactly the safe ones. */
  lemma {:induction false} FixedIffSafe(v: Value)
    ensures ToJSONSafe(v) == v <==> JsonSafe(v)
  {
    match v
    case Array(elems) =>
      var a := ToJSONSafe(v).elems;
      forall i | 0 <= i < |elems|
        ensures a[i] == elems[i] <==> JsonSafe(elems[i])
      {
        FixedIffSafe(elems[i]);
      }
      assert a == elems <==> forall i | 0 <= i < |elems| :: a[i] == elems[i];
    case Object(entries) => EntriesFixedIffSafe(entries);
    case _ =>
  }

  lemma {:induction false} EntriesFixedIffSafe(entries: seq<Entry>)
    ensures SafeEntries(entries) == entries <==> SafelyEntered(entries)
    ensures |SafeEntries(entries)| <= |entries|
  {
    if entries != [] {
      var init, last := entries[..|entries| - 1], entries[|entries| - 1];
      EntriesFixedIffSafe(init);
      FixedIffSafe(last.value);
      assert entries == init + [last];
      assert SafelyEntered(entries) <==> SafelyEntered(init) && last.key != PROTO && JsonSafe(last.value);
      if last.key != PROTO {
        LastsAgree(SafeEntries(init), Entry(last.key, ToJSONSafe(last.value)), init, last);
      }
    }
  }

  lemma SafeTwice(v: Value)
    ensures ToJSONSafe(ToJSONSafe(v)) == ToJSONSafe(v)
  {
    SafeIsSafe(v);
    FixedIffSafe(ToJSONSafe(v));
  }
}
