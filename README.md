# Style snitch, modelled in Dafny

`style-snitch.js` is a browser debugging helper. Given a DOM element it
reads the element's computed style, copies every property into a plain
object, re-inserts the properties in ascending order of name, keeps the
entries whose value does not look like a default (not empty, not starting
with `0px`), and writes a three-line summary: the element's tag name with
its `#id` and `.className`, the number of properties, and a guess at the
property "probably" responsible for a layout problem, picked by a
first-match search over seven fixed suspects. A missing element gives no
report.

This project models that logic:

- `wrappers.dfy` (`Wrappers`): the `Option` type for the missing element.
- `string_order.dfy` (`StringOrder`): lexicographic order on strings (the
  default comparator of `Array.prototype.sort`), proved a strict total
  order; a sort of the distinct keys of an object by it, proved to give a
  strictly increasing permutation; and the proof that a strictly
  increasing list is determined by its elements, so any correct sort
  gives the same key order.
- `text.dfy` (`Text`): the decimal rendering of the count with its
  inverse, and line splitting for stating the shape of the summary.
- `style_snitch.dfy` (`Snitch`): the element, the plain object used as a
  dictionary (`StyleObject`: own keys in insertion order plus their
  values), the copy loop, the sorted copy, the non-default filter, the
  culprit search, the summary and the whole inspection `StyleSnitch`.

The host's computed-style lookup (`window.getComputedStyle`, indexing the
`CSSStyleDeclaration` and `getPropertyValue`) is replaced by an input: the
list of (property, value) pairs the host reports, in its order. The
element is an `Option<Element>` whose `Element` holds `tagName`, `id` and
`className`.

The loops that fill objects in place (the copy loop, the `forEach` that
builds the sorted object, the `reduce` that builds the non-default object)
and the early-return search in `guessCulprit` are methods with loops and
invariants, proved against specification functions (`LastValue`,
`Culprit`) whose own properties are proved as lemmas. The filter test and
the summary template are functions.

Two points where the model departs from the text:

- The clue literals at `style-snitch.js:54` and `style-snitch.js:66`
  contain an apostrophe inside single quotes (`it's`, `IE's`) without
  escaping it, so the file as written ends each literal early and does not
  parse. The model uses the evidently intended texts
  `z-index wars (it's always z-index)` and
  `CSS being CSS (probably IE's fault somehow)`.
- A suspect implicates its property when the value is present, not empty
  and not `auto`: the test at `style-snitch.js:61` is JavaScript
  truthiness, which also rejects the empty string, so "present and not
  `auto`" alone would describe it too loosely; the model follows the code.

## Model

| member | source | states |
|---|---|---|
| `StringOrder.Below` | style-snitch.js:24 | its definition, the comparison of `.sort()` without a comparator: the empty string sorts before every other; otherwise equal first characters defer to the rest, and different ones decide by character order |
| `StringOrder.BelowAtFirstDifference` | style-snitch.js:24 | at the first position where two names differ, the one with the smaller character sorts first, and only then |
| `StringOrder.BelowPrefix` | style-snitch.js:24 | a proper prefix sorts before the longer name, and no name sorts before one of its prefixes |
| `StringOrder.BelowIrreflexive` | style-snitch.js:24 | no string sorts before itself |
| `StringOrder.BelowAsymmetric` | style-snitch.js:24 | if `a` sorts before `b`, `b` does not sort before `a` |
| `StringOrder.BelowTransitive` | style-snitch.js:24 | the sort order is transitive |
| `StringOrder.BelowTotal` | style-snitch.js:24 | of two different strings one sorts before the other, so the order is total |
| `StringOrder.StrictlySortedIsDistinct` | style-snitch.js:24 | a strictly increasing key list has no duplicates |
| `StringOrder.DistinctCardinality` | style-snitch.js:43 | a list without duplicates has as many elements as its set, so the key count is the number of distinct names |
| `StringOrder.Insert` | style-snitch.js:24 | inserting a new key into a strictly increasing list keeps it strictly increasing and adds exactly that key |
| `StringOrder.SortKeys` | style-snitch.js:24 | `Object.keys(...).sort()`: the result is strictly increasing and a permutation of the keys |
| `StringOrder.SortedUnique` | style-snitch.js:24 | two strictly increasing lists with the same elements are equal: the sorted key order does not depend on the sort algorithm |
| `Text.NatToString` | style-snitch.js:43 | the count is rendered as one or more decimal digits with no leading zero; zero is rendered as `0` |
| `Text.ParseNatToString` | style-snitch.js:43 | reading the rendered count back as a decimal number gives the count |
| `Text.SplitLines` | style-snitch.js:42-44 | splitting at line feeds gives at least one line, none containing a line feed, and joining the lines with line feeds gives the text back |
| `Text.LineCount` | style-snitch.js:42-44 | a text splits into one more line than it has line feeds |
| `Text.MoreThanThreeLines` | style-snitch.js:42-44 | three texts joined by line feeds give more than three lines when the first or the last holds a line feed |
| `Text.SplitLinesAppend` | style-snitch.js:42-44 | a line without line feed followed by `\n` splits off as exactly the first line |
| `Text.SplitThreeLines` | style-snitch.js:42-44 | three lines without line feed, joined by `\n`, split back into those three lines |
| `Snitch.StyleObject.Put` | style-snitch.js:19 | object assignment: the key gets the value, an existing key keeps its place, a new key goes last, keys stay distinct and match the value map |
| `Snitch.LastValue` | style-snitch.js:17-20 | its definition, the value the copy loop leaves for a property: the value of the last pair reported for it, scanning from the end, and none when it is not reported |
| `Snitch.LastValueIsLastOccurrence` | style-snitch.js:17-20 | the value recorded for a property is that of its last pair in the input, and a value is recorded exactly for the reported properties |
| `Snitch.CopyComputed` | style-snitch.js:13-20 | after the copy loop each reported property holds the value of its last pair, and no other key exists |
| `Snitch.SortedCopy` | style-snitch.js:23-26 | the sorted object has the same entries as the copy, with keys strictly increasing |
| `Snitch.IsNonDefault` | style-snitch.js:35 | its definition: a value is kept when it is not the empty string and does not start with `0px` |
| `Snitch.NonDefault` | style-snitch.js:34-39 | a key is kept exactly when its value is not empty and does not start with `0px`; kept values are unchanged; sorted keys stay sorted |
| `Snitch.Implicates` | style-snitch.js:61 | its definition: the suspect's property is present, its value is truthy (not the empty string) and it is not `auto` |
| `Snitch.GuessCulprit` | style-snitch.js:49-67 | the search returns the guess the specification `Culprit` defines |
| `Snitch.Suspects` | style-snitch.js:50-58 | its definition: the pairs (`display`, `position`, `float`, `z-index`, `margin`, `flex`, `grid`) in source order with their clues, the clue of `z-index` being the evidently intended `z-index wars (it's always z-index)` |
| `Snitch.Fallback` | style-snitch.js:66 | its definition: the evidently intended phrase `CSS being CSS (probably IE's fault somehow)` |
| `Snitch.Culprit` | style-snitch.js:49-67 | its definition, the value `guessCulprit` returns: the scan of `Suspects` from the first one |
| `Snitch.CulpritFromCases` | style-snitch.js:60-66 | scanning any list of suspects from any position on returns the clue of the first implicated one, or the fallback phrase when none is |
| `Snitch.CluesDistinct` | style-snitch.js:50-66 | the seven clues differ from each other and from the fallback phrase |
| `Snitch.CulpritIsFirstImplicated` | style-snitch.js:60-64 | the guess is suspect `i`'s clue if and only if suspect `i` is implicated (present, not empty, not `auto`) and no earlier suspect is |
| `Snitch.CulpritFallback` | style-snitch.js:60-66 | the guess is the fallback phrase if and only if no suspect is implicated |
| `Snitch.DisplayWins` | style-snitch.js:51-62 | a usable `display` value decides the guess whatever the later suspects hold |
| `Snitch.Header` | style-snitch.js:42 | its definition: `Element: ` and the tag name, then `#` and the id when the id is not empty, then `.` and the class name when the class name is not empty |
| `Snitch.Summary` | style-snitch.js:42-44 | its definition: the header, a line feed, `Total styles: ` and the decimal count, a line feed, `Probably broken because: ` and the clue |
| `Snitch.HeaderHasNoLineFeed` | style-snitch.js:42 | the header line has no line feed when the tag name, id and class name have none |
| `Snitch.SummaryLines` | style-snitch.js:42-44 | when the tag name, id, class name and clue contain no line feed, the summary is exactly three lines (header, `Total styles: <count>`, `Probably broken because: <clue>`) and the count reads back from the second |
| `Snitch.LineFeedInHeader` | style-snitch.js:42 | a line feed in the tag name, id or class name appears in the header |
| `Snitch.SummaryExtraLines` | style-snitch.js:42-44 | a line feed in the tag name, id, class name or clue gives the summary more than three lines |
| `Snitch.CulpritHasNoLineFeed` | style-snitch.js:50-66 | no culprit guess contains a line feed, so only the element's fields can add lines to the summary |
| `Snitch.ExampleLines` | style-snitch.js:42-43 | for a DIV with id `box`, class `red large` and three properties the header is `Element: DIV#box.red large` and the count line `Total styles: 3` |
| `Snitch.ExampleSummary` | style-snitch.js:42-44 | for that DIV and any clue without a line feed, the summary's lines are exactly `Element: DIV#box.red large`, `Total styles: 3` and `Probably broken because: ` followed by the clue |
| `Snitch.StyleSnitch` | style-snitch.js:4-46 | no report exactly for a missing element; otherwise `all` has exactly the reported names, each with its last value, keys strictly increasing, `nonDefault` is the non-default sub-object in sorted order, and the summary carries the number of distinct names and the culprit of `all` |

## Left out

- `window.getComputedStyle` and the `CSSStyleDeclaration` it returns: a host API; the properties it reports are an input list of pairs.
- `console.warn` on a missing element and the `console.log` calls: console output with no effect on the result.
- `console.snitch` (style-snitch.js:70-77): orchestration over `document.querySelector` and the console; it also reads `result.summary` when `result` is `null`, which fails at run time in the host.
- The `module.exports` guard (style-snitch.js:80-82): module-system plumbing.
- The sort compares strings as sequences of Dafny characters (Unicode scalar values); the engine compares UTF-16 code units, which orders characters outside the Basic Multilingual Plane differently. Standard CSS property names are ASCII. The engine's own in-place sort algorithm is replaced by an insertion sort on a sequence; `SortedUnique` shows the result does not depend on the algorithm.
- JavaScript's own-key order puts integer-like keys first, and assigning a string to a key named `__proto__` goes to the prototype setter, which ignores it, so no key is added; CSS property names are neither, so objects are modelled as keys in insertion order.
- `className` is modelled as a string; on SVG elements it is an `SVGAnimatedString` object, which is always truthy and would print as `[object SVGAnimatedString]`.
