/**
  The style snitch: copies the computed style of an element into a plain
  object, sorts it by property name, keeps the entries that do not look
  like defaults, and writes a three-line summary naming the property that
  is "probably" to blame for a layout problem.

  The host's computed-style lookup is not modelled: the properties it
  reports, in its order, are the input `computed`, a list of
  (property, value) pairs.
 */
module Snitch {
  import opened Wrappers
  import opened StringOrder
  import opened Text

  /** What the summary reads from an element. */
  datatype Element = Element(tagName: string, id: string, className: string)

  /**
    A plain object used as a dictionary: its own keys in insertion order
    and the value of each key.
   */
  datatype StyleObject = StyleObject(keys: seq<string>, values: map<string, string>)
  {
    ghost predicate Valid()
    {
      Distinct(keys) && (forall k :: k in values <==> k in keys)
    }

    /**
      The assignment `obj[key] = value`: an existing key keeps its place
      and gets the new value; a new key is added after all the others.
     */
    function Put(key: string, value: string): (r: StyleObject)
      requires Valid()
      ensures r.Valid()
      ensures r.values == values[key := value]
      ensures r.keys == if key in values then keys else keys + [key]
    {
      if key in values then StyleObject(keys, values[key := value])
      else StyleObject(keys + [key], values[key := value])
    }
  }

  const EmptyObject: StyleObject := StyleObject([], map[])

  /** The result of one inspection. */
  datatype Report = Report(all: StyleObject, nonDefault: StyleObject, summary: string)

  // ---------------------------------------------------------------------
  // Copying the computed style

  /** The names of all properties the host reports. */
  function PropertyNames(computed: seq<(string, string)>): set<string>
  {
    set p | p in computed :: p.0
  }

  /** The value of the last pair for `prop`, if there is one. */
  function LastValue(computed: seq<(string, string)>, prop: string): Option<string>
    decreases |computed|
  {
    if computed == [] then None
    else if computed[|computed| - 1].0 == prop then Some(computed[|computed| - 1].1)
    else LastValue(computed[..|computed| - 1], prop)
  }

  /** Position `i` holds the last pair reported for `prop`. */
  predicate IsLastOccurrence(computed: seq<(string, string)>, i: int, prop: string)
  {
    0 <= i < |computed| && computed[i].0 == prop &&
    forall j :: i < j < |computed| ==> computed[j].0 != prop
  }

  /**
    `LastValue` finds the value of the last pair for a property, and
    finds one exactly for the properties that are reported.
   */
  lemma {:induction false} LastValueIsLastOccurrence(computed: seq<(string, string)>, prop: string, v: string)
    ensures LastValue(computed, prop) == Some(v) <==>
            exists i :: IsLastOccurrence(computed, i, prop) && computed[i].1 == v
    ensures LastValue(computed, prop).Some? <==> prop in PropertyNames(computed)
    decreases |computed|
  {
    if computed != [] {
      var n := |computed| - 1;
      var init := computed[..n];
      LastValueIsLastOccurrence(init, prop, v);
      if computed[n].0 == prop {
        assert IsLastOccurrence(computed, n, prop);
        assert computed[n] in computed;
        if LastValue(computed, prop) != Some(v) {
          forall i | IsLastOccurrence(computed, i, prop) ensures computed[i].1 != v {
            assert i == n;
          }
        }
      } else {
        forall i ensures IsLastOccurrence(computed, i, prop) <==> IsLastOccurrence(init, i, prop) {
        }
        if prop in PropertyNames(computed) {
          var p :| p in computed && p.0 == prop;
          var i :| 0 <= i < |computed| && computed[i] == p;
          assert init[i] == p;
        }
        if prop in PropertyNames(init) {
          var p :| p in init && p.0 == prop;
          var i :| 0 <= i < |init| && init[i] == p;
          assert computed[i] == p;
        }
      }
    }
  }

  /**
    The copy loop: `styleObj[prop] = value` for every reported property in
    turn, so a later pair for the same property overwrites an earlier one.
   */
  method CopyComputed(computed: seq<(string, string)>) returns (obj: StyleObject)
    ensures obj.Valid()
    ensures forall prop :: LastValue(computed, prop) ==
              if prop in obj.values then Some(obj.values[prop]) else None
  {
    obj := EmptyObject;
    for i := 0 to |computed|
      invariant obj.Valid()
      invariant forall prop :: LastValue(computed[..i], prop) ==
                  if prop in obj.values then Some(obj.values[prop]) else None
    {
      var (prop, value) := computed[i];
      assert computed[..i + 1][..i] == computed[..i];
      obj := obj.Put(prop, value);
    }
    assert computed[..|computed|] == computed;
  }

  // ---------------------------------------------------------------------
  // Sorting

  /**
    `Object.keys(styleObj).sort()` followed by `sortedStyles[key] =
    styleObj[key]` for each key in that order: the same entries, with the
    keys in increasing order.
   */
  method SortedCopy(obj: StyleObject) returns (sorted: StyleObject)
    requires obj.Valid()
    ensures sorted.Valid()
    ensures StrictlySorted(sorted.keys)
    ensures sorted.values == obj.values
  {
    var keys := SortKeys(obj.keys);
    StrictlySortedIsDistinct(keys);
    SameMultisetSameElements(keys, obj.keys);
    sorted := EmptyObject;
    for i := 0 to |keys|
      invariant sorted.Valid()
      invariant sorted.keys == keys[..i]
      invariant forall k :: k in sorted.values ==> sorted.values[k] == obj.values[k]
    {
      var key := keys[i];
      assert key !in keys[..i];
      sorted := sorted.Put(key, obj.values[key]);
      assert keys[..i + 1] == keys[..i] + [key];
    }
    assert keys[..|keys|] == keys;
    SameEntries(sorted.values, obj.values);
  }

  /** Two maps with the same keys and the same value at each key are equal. */
  lemma SameEntries(m: map<string, string>, n: map<string, string>)
    requires forall k :: k in m <==> k in n
    requires forall k :: k in m ==> m[k] == n[k]
    ensures m == n
  {
  }

  // ---------------------------------------------------------------------
  // Non-default values

  /** A value that is kept: not empty and not starting with "0px". */
  predicate IsNonDefault(value: string)
  {
    value != "" && !("0px" <= value)
  }

  /**
    `Object.keys(all).filter(IsNonDefault).reduce(...)`: the entries of
    `all` whose value is not default-looking, in the same order.
   */
  method NonDefault(all: StyleObject) returns (nd: StyleObject)
    requires all.Valid()
    ensures nd.Valid()
    ensures forall k :: k in nd.values <==> k in all.values && IsNonDefault(all.values[k])
    ensures forall k :: k in nd.values ==> nd.values[k] == all.values[k]
    ensures StrictlySorted(all.keys) ==> StrictlySorted(nd.keys)
  {
    nd := EmptyObject;
    for i := 0 to |all.keys|
      invariant nd.Valid()
      invariant forall k :: k in nd.values <==> k in all.keys[..i] && IsNonDefault(all.values[k])
      invariant forall k :: k in nd.values ==> nd.values[k] == all.values[k]
      invariant StrictlySorted(all.keys) ==> StrictlySorted(nd.keys)
    {
      var key := all.keys[i];
      assert all.keys[..i + 1] == all.keys[..i] + [key];
      if IsNonDefault(all.values[key]) {
        assert key !in all.keys[..i];
        if StrictlySorted(all.keys) {
          forall j | 0 <= j < |nd.keys| ensures Below(nd.keys[j], key) {
            var k := nd.keys[j];
            assert k in all.keys[..i];
            var m :| 0 <= m < i && all.keys[m] == k;
          }
          AppendSorted(nd.keys, key);
        }
        nd := nd.Put(key, all.values[key]);
      }
    }
    assert all.keys[..|all.keys|] == all.keys;
  }

  // ---------------------------------------------------------------------
  // The culprit guess

  datatype Suspect = Suspect(prop: string, clue: string)

  const DisplayClue: string := "display issues (shocking!)"
  const PositionClue: string := "positioning drama"
  const FloatClue: string := "1998 called, wants its layout back"
  const ZIndexClue: string := "z-index wars (it's always z-index)"
  const MarginClue: string := "margin collapse shenanigans"
  const FlexClue: string := "flexbox confusion"
  const GridClue: string := "grid grief"

  /** The suspects, most likely first. */
  const Suspects: seq<Suspect> := [
    Suspect("display", DisplayClue),
    Suspect("position", PositionClue),
    Suspect("float", FloatClue),
    Suspect("z-index", ZIndexClue),
    Suspect("margin", MarginClue),
    Suspect("flex", FlexClue),
    Suspect("grid", GridClue)
  ]

  /** The phrase used when no suspect is implicated. */
  const Fallback: string := "CSS being CSS (probably IE's fault somehow)"

  /**
    `styles[prop] && styles[prop] !== 'auto'`: the property is present, its
    value is truthy (a non-empty string) and it is not "auto".
   */
  predicate Implicates(styles: map<string, string>, prop: string)
  {
    prop in styles && styles[prop] != "" && styles[prop] != "auto"
  }

  /** The clue of the first implicated suspect of `suspects` at or after position `i`. */
  function CulpritFrom(styles: map<string, string>, suspects: seq<Suspect>, i: nat): string
    decreases |suspects| - i
  {
    if i >= |suspects| then Fallback
    else if Implicates(styles, suspects[i].prop) then suspects[i].clue
    else CulpritFrom(styles, suspects, i + 1)
  }

  function Culprit(styles: map<string, string>): string
  {
    CulpritFrom(styles, Suspects, 0)
  }

  /** The linear search with early return. */
  method GuessCulprit(styles: StyleObject) returns (clue: string)
    ensures clue == Culprit(styles.values)
  {
    for i := 0 to |Suspects|
      invariant CulpritFrom(styles.values, Suspects, i) == Culprit(styles.values)
    {
      var suspect := Suspects[i];
      if Implicates(styles.values, suspect.prop) {
        return suspect.clue;
      }
    }
    return Fallback;
  }

  /** Suspect `i` is implicated and no earlier one is. */
  predicate FirstImplicated(styles: map<string, string>, i: int)
  {
    0 <= i < |Suspects| && Implicates(styles, Suspects[i].prop) &&
    forall j :: 0 <= j < i ==> !Implicates(styles, Suspects[j].prop)
  }

  /** No suspect of `suspects` at a position in `lo..hi` is implicated. */
  predicate NoneImplicated(styles: map<string, string>, suspects: seq<Suspect>, lo: int, hi: int)
  {
    forall j :: lo <= j < hi && 0 <= j < |suspects| ==> !Implicates(styles, suspects[j].prop)
  }

  /**
    Scanning `suspects` from `start` gives the clue of the first implicated
    suspect, or the fallback phrase when none is implicated.
   */
  lemma {:induction false} CulpritFromCases(styles: map<string, string>, suspects: seq<Suspect>, start: nat)
    requires start <= |suspects|
    ensures (exists i :: start <= i < |suspects| && Implicates(styles, suspects[i].prop) &&
               NoneImplicated(styles, suspects, start, i) &&
               CulpritFrom(styles, suspects, start) == suspects[i].clue)
         || (NoneImplicated(styles, suspects, start, |suspects|) &&
             CulpritFrom(styles, suspects, start) == Fallback)
    decreases |suspects| - start
  {
    if start == |suspects| {
      assert NoneImplicated(styles, suspects, start, |suspects|);
    } else if Implicates(styles, suspects[start].prop) {
      assert NoneImplicated(styles, suspects, start, start);
    } else {
      CulpritFromCases(styles, suspects, start + 1);
      if NoneImplicated(styles, suspects, start + 1, |suspects|) {
        assert NoneImplicated(styles, suspects, start, |suspects|);
      } else {
        var i :| start + 1 <= i < |suspects| && Implicates(styles, suspects[i].prop) &&
                 NoneImplicated(styles, suspects, start + 1, i) &&
                 CulpritFrom(styles, suspects, start + 1) == suspects[i].clue;
        assert NoneImplicated(styles, suspects, start, i);
      }
    }
  }

  /** The clues differ from each other and from the fallback phrase. */
  lemma CluesDistinct()
    ensures forall i, j :: 0 <= i < j < |Suspects| ==> Suspects[i].clue != Suspects[j].clue
    ensures forall i :: 0 <= i < |Suspects| ==> Suspects[i].clue != Fallback
  {
    forall i, j | 0 <= i < j < |Suspects| ensures Suspects[i].clue != Suspects[j].clue {
      assert Suspects[i].clue[0] != Suspects[j].clue[0];
    }
    forall i | 0 <= i < |Suspects| ensures Suspects[i].clue != Fallback {
      assert Suspects[i].clue[0] != Fallback[0];
    }
  }

  /** The guess is suspect `i`'s clue exactly when suspect `i` is the first one implicated. */
  lemma CulpritIsFirstImplicated(styles: map<string, string>, i: int)
    requires 0 <= i < |Suspects|
    ensures Culprit(styles) == Suspects[i].clue <==> FirstImplicated(styles, i)
  {
    CulpritFromCases(styles, Suspects, 0);
    CluesDistinct();
    if FirstImplicated(styles, i) {
      var k :| 0 <= k < |Suspects| && Implicates(styles, Suspects[k].prop) &&
               NoneImplicated(styles, Suspects, 0, k) && Culprit(styles) == Suspects[k].clue;
      assert k == i;
    }
  }

  /** The guess is the fallback phrase exactly when no suspect is implicated. */
  lemma CulpritFallback(styles: map<string, string>)
    ensures Culprit(styles) == Fallback <==>
            forall j :: 0 <= j < |Suspects| ==> !Implicates(styles, Suspects[j].prop)
  {
    CulpritFromCases(styles, Suspects, 0);
    CluesDistinct();
  }

  /** A usable `display` value decides the guess whatever the other suspects say. */
  lemma DisplayWins(styles: map<string, string>)
    requires Implicates(styles, "display")
    ensures Culprit(styles) == DisplayClue
  {
    CulpritIsFirstImplicated(styles, 0);
  }

  /** No clue contains a line feed, so the culprit line is a single line. */
  lemma CulpritHasNoLineFeed(styles: map<string, string>)
    ensures '\n' !in Culprit(styles)
  {
    CulpritFromCases(styles, Suspects, 0);
    assert '\n' !in Fallback;
    forall i | 0 <= i < |Suspects| ensures '\n' !in Suspects[i].clue {
      ClueHasNoLineFeed(i);
    }
  }

  lemma ClueHasNoLineFeed(i: int)
    requires 0 <= i < |Suspects|
    ensures '\n' !in Suspects[i].clue
  {
    LongCluesHaveNoLineFeed();
    ShortCluesHaveNoLineFeed();
  }

  // The clue texts are checked in two groups to keep each proof small.

  lemma LongCluesHaveNoLineFeed()
    ensures '\n' !in FloatClue && '\n' !in ZIndexClue
  {
  }

  lemma ShortCluesHaveNoLineFeed()
    ensures '\n' !in DisplayClue && '\n' !in PositionClue && '\n' !in MarginClue
    ensures '\n' !in FlexClue && '\n' !in GridClue
  {
  }

  // ---------------------------------------------------------------------
  // The summary

  /** First line: tag name, then `#id` and `.className` when they are not empty. */
  function Header(element: Element): string
  {
    "Element: " + element.tagName
      + (if element.id != "" then "#" + element.id else "")
      + (if element.className != "" then "." + element.className else "")
  }

  const CountPrefix: string := "Total styles: "
  const CulpritPrefix: string := "Probably broken because: "

  /** Second line: the number of properties. */
  function CountLine(count: nat): string
  {
    CountPrefix + NatToString(count)
  }

  /** Third line: the culprit guess. */
  function CulpritLine(clue: string): string
  {
    CulpritPrefix + clue
  }

  /** The three lines, each of the first two ended by a line feed. */
  function Summary(element: Element, count: nat, clue: string): string
  {
    Header(element) + "\n" + CountLine(count) + "\n" + CulpritLine(clue)
  }

  /**
    The summary has exactly three lines, header, count and culprit, and
    the count can be read back from the second one.
   */
  lemma SummaryLines(element: Element, count: nat, clue: string)
    requires '\n' !in element.tagName && '\n' !in element.id && '\n' !in element.className
    requires '\n' !in clue
    ensures SplitLines(Summary(element, count, clue)) ==
            [Header(element), CountLine(count), CulpritLine(clue)]
    ensures CountPrefix <= CountLine(count) && ParseDecimal(CountLine(count)[|CountPrefix|..]) == count
  {
    var digits := NatToString(count);
    HeaderHasNoLineFeed(element);
    assert '\n' !in CountLine(count) by {
      NoLineFeedInConcat(CountPrefix, digits);
    }
    assert '\n' !in CulpritLine(clue) by {
      NoLineFeedInConcat(CulpritPrefix, clue);
    }
    SplitThreeLines(Header(element), CountLine(count), CulpritLine(clue));
    assert CountLine(count)[|CountPrefix|..] == digits;
    ParseNatToString(count);
  }

  /**
    A line feed in the tag name, id, class name or clue gives the summary
    more than three lines.
   */
  lemma SummaryExtraLines(element: Element, count: nat, clue: string)
    requires '\n' in element.tagName || '\n' in element.id || '\n' in element.className || '\n' in clue
    ensures |SplitLines(Summary(element, count, clue))| > 3
  {
    if '\n' in clue {
      assert '\n' in CulpritLine(clue);
    } else {
      LineFeedInHeader(element);
    }
    MoreThanThreeLines(Header(element), CountLine(count), CulpritLine(clue));
  }

  lemma LineFeedInHeader(element: Element)
    requires '\n' in element.tagName || '\n' in element.id || '\n' in element.className
    ensures '\n' in Header(element)
  {
    var idPart := if element.id != "" then "#" + element.id else "";
    var classPart := if element.className != "" then "." + element.className else "";
    assert Header(element) == "Element: " + element.tagName + idPart + classPart;
    assert '\n' in element.tagName + idPart + classPart;
  }

  lemma NoLineFeedInConcat(a: string, b: string)
    requires '\n' !in a && '\n' !in b
    ensures '\n' !in a + b
  {
  }

  lemma HeaderHasNoLineFeed(element: Element)
    requires '\n' !in element.tagName && '\n' !in element.id && '\n' !in element.className
    ensures '\n' !in Header(element)
  {
    var id := if element.id != "" then "#" + element.id else "";
    var cls := if element.className != "" then "." + element.className else "";
    NoLineFeedInConcat("#", element.id);
    NoLineFeedInConcat(".", element.className);
    NoLineFeedInConcat("Element: ", element.tagName);
    NoLineFeedInConcat("Element: " + element.tagName, id);
    NoLineFeedInConcat("Element: " + element.tagName + id, cls);
  }

  /** The header and count line of a DIV with an id, two classes and three properties. */
  lemma ExampleLines()
    ensures Header(Element("DIV", "box", "red large")) == "Element: DIV#box.red large"
    ensures CountLine(3) == "Total styles: 3"
  {
    assert NatToString(3) == "3";
  }

  /** The summary of that DIV, line by line, for any clue without a line feed. */
  lemma ExampleSummary(clue: string)
    requires '\n' !in clue
    ensures SplitLines(Summary(Element("DIV", "box", "red large"), 3, clue)) ==
            ["Element: DIV#box.red large", "Total styles: 3", "Probably broken because: " + clue]
  {
    var element := Element("DIV", "box", "red large");
    SummaryLines(element, 3, clue);
    ExampleLines();
  }

  // ---------------------------------------------------------------------
  // The whole inspection

  /**
    Inspects an element: no report for a missing element; otherwise the
    sorted copy of its computed style, the non-default entries and the
    summary.
   */
  method StyleSnitch(element: Option<Element>, computed: seq<(string, string)>)
    returns (report: Option<Report>)
    ensures element.None? <==> report.None?
    ensures report.Some? ==>
      var r := report.value;
      && r.all.Valid()
      && StrictlySorted(r.all.keys)
      && (forall p :: p in r.all.values <==> p in PropertyNames(computed))
      && (forall p :: p in r.all.values ==>
            exists i :: IsLastOccurrence(computed, i, p) && computed[i].1 == r.all.values[p])
      && r.nonDefault.Valid()
      && StrictlySorted(r.nonDefault.keys)
      && (forall p :: p in r.nonDefault.values <==> p in r.all.values && IsNonDefault(r.all.values[p]))
      && (forall p :: p in r.nonDefault.values ==> r.nonDefault.values[p] == r.all.values[p])
      && |r.all.keys| == |PropertyNames(computed)|
      && r.summary == Summary(element.value, |PropertyNames(computed)|, Culprit(r.all.values))
  {
    if element.None? {
      return None;
    }
    var el := element.value;
    var styleObj := CopyComputed(computed);
    var sortedStyles := SortedCopy(styleObj);
    var nonDefault := NonDefault(sortedStyles);
    var clue := GuessCulprit(sortedStyles);
    forall p ensures p in sortedStyles.values <==> p in PropertyNames(computed) {
      LastValueIsLastOccurrence(computed, p, "");
    }
    forall p | p in sortedStyles.values
      ensures exists i :: IsLastOccurrence(computed, i, p) && computed[i].1 == sortedStyles.values[p]
    {
      LastValueIsLastOccurrence(computed, p, sortedStyles.values[p]);
    }
    assert (set k | k in sortedStyles.keys) == PropertyNames(computed);
    DistinctCardinality(sortedStyles.keys);
    var count := |sortedStyles.keys|;
    var summary := Summary(el, count, clue);
    report := Some(Report(sortedStyles, nonDefault, summary));
  }
}
