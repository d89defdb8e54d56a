/**
 * The helpers both test files define for themselves: `english_join`, which titles a
 * context; `with_property`, which splits its arguments into property declarations and
 * example-group tags; and `NewResourceNamer`, which hands out resource names.
 */
module SpecHelpers {
  import opened Values

  // ---------------------------------------------------------------------------
  // english_join

  /** `parts.join(sep)`. */
  function Join(parts: seq<string>, sep: string): string
    decreases |parts|
  {
    if parts == [] then ""
    else if |parts| == 1 then parts[0]
    else parts[0] + sep + Join(parts[1..], sep)
  }

  /** `values.map(f)`. */
  function Map<T>(values: seq<T>, f: T -> string): (r: seq<string>)
    ensures |r| == |values|
    ensures forall i :: 0 <= i < |values| ==> r[i] == f(values[i])
    decreases |values|
  {
    if values == [] then [] else [f(values[0])] + Map(values[1..], f)
  }

  /**
   * `english_join(values)`, with `inspect` for Ruby's `#inspect`: `<nothing>` for no
   * values, the one value inspected, or all but the last joined by ", " and then
   * " and " and the last.
   */
  function EnglishJoin<T>(values: seq<T>, inspect: T -> string): string {
    if |values| == 0 then "<nothing>"
    else if |values| == 1 then inspect(values[0])
    else Join(Map(values[..|values| - 1], inspect), ", ") + " and " + inspect(values[|values| - 1])
  }

  /** Reference listing built from the back: each further value is appended after ", ". */
  function Listing<T>(values: seq<T>, inspect: T -> string): string
    requires values != []
    decreases |values|
  {
    if |values| == 1 then inspect(values[0])
    else Listing(values[..|values| - 1], inspect) + ", " + inspect(values[|values| - 1])
  }

  lemma {:induction false} JoinSnoc(parts: seq<string>, x: string, sep: string)
    requires parts != []
    ensures Join(parts + [x], sep) == Join(parts, sep) + sep + x
    decreases |parts|
  {
    if |parts| == 1 {
      assert parts + [x] == [parts[0], x];
      assert [parts[0], x][1..] == [x];
    } else {
      assert (parts + [x])[1..] == parts[1..] + [x];
      JoinSnoc(parts[1..], x, sep);
    }
  }

  /** Joining the inspected values with ", " is the reference listing. */
  lemma {:induction false} JoinMapIsListing<T>(values: seq<T>, inspect: T -> string)
    requires values != []
    ensures Join(Map(values, inspect), ", ") == Listing(values, inspect)
    decreases |values|
  {
    if |values| > 1 {
      var init, last := values[..|values| - 1], values[|values| - 1];
      JoinMapIsListing(init, inspect);
      MapSnoc(init, last, inspect);
      assert values == init + [last];
      JoinSnoc(Map(init, inspect), inspect(last), ", ");
    }
  }

  lemma MapSnoc<T>(init: seq<T>, last: T, f: T -> string)
    ensures Map(init + [last], f) == Map(init, f) + [f(last)]
  {
    var l, r := Map(init + [last], f), Map(init, f) + [f(last)];
    assert |l| == |r|;
    forall i | 0 <= i < |l| ensures l[i] == r[i] {
      if i < |init| {
        assert (init + [last])[i] == init[i];
      }
    }
  }

  /**
   * What `english_join` produces, in all three cases: `<nothing>`, the one value, or the
   * reference listing of all but the last followed by " and " and the last.
   */
  lemma EnglishJoinSpec<T>(values: seq<T>, inspect: T -> string)
    ensures values == [] ==> EnglishJoin(values, inspect) == "<nothing>"
    ensures |values| == 1 ==> EnglishJoin(values, inspect) == inspect(values[0])
    ensures |values| >= 2 ==>
              EnglishJoin(values, inspect)
              == Listing(values[..|values| - 1], inspect) + " and " + inspect(values[|values| - 1])
  {
    if |values| >= 2 {
      JoinMapIsListing(values[..|values| - 1], inspect);
    }
  }

  // ---------------------------------------------------------------------------
  // with_property

  /** An argument of `with_property`: a property declaration string, or anything else (a tag). */
  datatype Arg = Text(s: string) | Tag(text: string)

  /** How Ruby interpolates an argument into a string (`to_s`). */
  function ToS(a: Arg): string {
    match a
    case Text(s) => s
    case Tag(t) => t
  }

  /** `properties.find_index { |p| !p.is_a?(String) }`: the first argument that is not a string. */
  function FindIndex(args: seq<Arg>): (r: Option<nat>)
    ensures r.Some? ==> r.value < |args| && args[r.value].Tag? && forall j :: 0 <= j < r.value ==> args[j].Text?
    ensures r.None? ==> forall j :: 0 <= j < |args| ==> args[j].Text?
    decreases |args|
  {
    if args == [] then None
    else if args[0].Tag? then Some(0)
    else match FindIndex(args[1..])
      case None => None
      case Some(k) => Some(k + 1)
  }

  /**
   * Ruby's `a[first..last]` for `0 <= first <= |a|`: a negative `last` counts from the
   * end, and the range includes `last`.
   */
  function InclusiveSlice<T>(a: seq<T>, first: nat, last: int): (r: seq<T>)
    requires first <= |a|
  {
    var end := if last < 0 then last + |a| else last;
    if end < first then [] else a[first..if end + 1 < |a| then end + 1 else |a|]
  }

  /** The two lists `with_property` builds before prefixing the property strings. */
  datatype Split = Split(properties: seq<Arg>, tags: seq<Arg>)

  /**
   * The split as written: `properties[0..tags_index-1]` and `properties[tags_index..-1]`.
   * When the first argument is already a tag, `0..-1` is the whole list, so every
   * argument is also taken as a property.
   */
  function SplitAsWritten(args: seq<Arg>): Split {
    match FindIndex(args)
    case Some(k) => Split(InclusiveSlice(args, 0, k - 1), InclusiveSlice(args, k, -1))
    case None => Split(args, [])
  }

  /** The split as intended: the arguments before the first tag, and the rest. */
  function SplitArgs(args: seq<Arg>): (r: Split)
    ensures r.properties + r.tags == args
    ensures forall i :: 0 <= i < |r.properties| ==> r.properties[i].Text?
    ensures r.tags == [] || r.tags[0].Tag?
  {
    match FindIndex(args)
    case Some(k) => Split(args[..k], args[k..])
    case None => Split(args, [])
  }

  /** A split is determined by its contract: strings up to the first tag, the rest from there. */
  lemma {:induction false} SplitUnique(args: seq<Arg>, s: Split)
    requires s.properties + s.tags == args
    requires forall i :: 0 <= i < |s.properties| ==> s.properties[i].Text?
    requires s.tags == [] || s.tags[0].Tag?
    ensures s == SplitArgs(args)
  {
    var k := |s.properties|;
    assert forall i :: 0 <= i < k ==> args[i] == s.properties[i];
    assert k < |args| ==> args[k] == s.tags[0];
    assert s.properties == args[..k] && s.tags == args[k..];
  }

  /** When a string comes first, the split as written and the split as intended agree. */
  lemma AsWrittenAgreesAfterAString(args: seq<Arg>)
    requires FindIndex(args) != Some(0)
    ensures SplitAsWritten(args) == SplitArgs(args)
  {
  }

  /** A tag given first is both a property and a tag in the split as written. */
  lemma LeadingTagCounterexample()
    ensures SplitAsWritten([Tag("focus")]) == Split([Tag("focus")], [Tag("focus")])
    ensures SplitArgs([Tag("focus")]) == Split([], [Tag("focus")])
  {
    assert FindIndex([Tag("focus")]) == Some(0);
  }

  /** `"property #{property}"` for each property argument. */
  function Declarations(properties: seq<Arg>): (r: seq<string>)
    ensures |r| == |properties|
    ensures forall i :: 0 <= i < |properties| ==> r[i] == "property " + ToS(properties[i])
  {
    Map(properties, (p: Arg) => "property " + ToS(p))
  }

  /**
   * `with_property(*args)`: the property declarations to evaluate in the resource class,
   * the tags for the example group, and the context's title.
   */
  method WithProperty(args: seq<Arg>, inspect: string -> string)
    returns (description: string, declarations: seq<string>, tags: seq<Arg>)
    ensures |declarations| + |tags| == |args|
    ensures forall i :: 0 <= i < |declarations| ==> args[i].Text? && declarations[i] == "property " + args[i].s
    ensures tags == args[|declarations|..] && (tags == [] || tags[0].Tag?)
    ensures description == "With properties " + EnglishJoin(declarations, inspect)
    ensures declarations == Declarations(SplitArgs(args).properties) && tags == SplitArgs(args).tags
  {
    var properties := args;
    var tagsIndex := FindIndex(args);
    if tagsIndex.Some? {
      properties, tags := args[..tagsIndex.value], args[tagsIndex.value..];
    } else {
      tags := [];
    }
    declarations := Declarations(properties);
    description := "With properties " + EnglishJoin(declarations, inspect);
  }

  // ---------------------------------------------------------------------------
  // NewResourceNamer

  /** The decimal digits of `n`, most significant first, as Ruby's interpolation writes them. */
  function Decimal(n: nat): (r: string)
    ensures r != [] && forall i :: 0 <= i < |r| ==> '0' <= r[i] <= '9'
    decreases n
  {
    if n < 10 then [Digit(n)] else Decimal(n / 10) + [Digit(n % 10)]
  }

  function Digit(d: nat): (c: char)
    requires d < 10
    ensures '0' <= c <= '9' && (c as int) - ('0' as int) == d
  {
    (('0' as int) + d) as char
  }

  /** Reads a string of decimal digits back as a number. */
  function ParseDecimal(s: string): nat
    requires forall i :: 0 <= i < |s| ==> '0' <= s[i] <= '9'
    decreases |s|
  {
    if s == [] then 0
    else ParseDecimal(s[..|s| - 1]) * 10 + ((s[|s| - 1] as int) - ('0' as int))
  }

  lemma {:induction false} ParseDecimalRoundTrip(n: nat)
    ensures ParseDecimal(Decimal(n)) == n
    decreases n
  {
    if n >= 10 {
      ParseDecimalRoundTrip(n / 10);
      var s := Decimal(n);
      assert s[..|s| - 1] == Decimal(n / 10);
    }
  }

  const NamePrefix: string := "chef_resource_property_spec_"

  /** The name handed out when the counter reaches `i`. */
  function NameFor(i: nat): string {
    NamePrefix + Decimal(i)
  }

  /** The number at the end of a handed-out name is the counter value that built it. */
  lemma NameSuffix(i: nat)
    ensures NameFor(i)[..|NamePrefix|] == NamePrefix
    ensures ParseDecimal(NameFor(i)[|NamePrefix|..]) == i
  {
    assert NameFor(i)[|NamePrefix|..] == Decimal(i);
    ParseDecimalRoundTrip(i);
  }

  /** Different counter values give different names. */
  lemma NamesDistinct(i: nat, j: nat)
    requires i != j
    ensures NameFor(i) != NameFor(j)
  {
    NameSuffix(i);
    NameSuffix(j);
  }

  /** `class NewResourceNamer; @i = 0; def self.next ...`: a counter shared by the examples. */
  class NewResourceNamer {
    var i: nat

    constructor ()
      ensures i == 0
    {
      i := 0;
    }

    /** `next`: bump the counter first, then build the name from it. */
    method Next() returns (name: string)
      modifies this
      ensures i == old(i) + 1
      ensures name == NameFor(i)
    {
      i := i + 1;
      name := NamePrefix + Decimal(i);
    }
  }

  /** Names from successive calls are distinct, and the second's suffix is one more. */
  method NextTwice(namer: NewResourceNamer) returns (first: string, second: string)
    modifies namer
    ensures first == NameFor(old(namer.i) + 1) && second == NameFor(old(namer.i) + 2)
    ensures first != second
  {
    first := namer.Next();
    second := namer.Next();
    NamesDistinct(namer.i - 1, namer.i);
  }
}
