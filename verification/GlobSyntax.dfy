/**
 Glob syntax from the writer's side: what a pattern is written as, and what it then means,
 both stated without the reading of `Glob`. Every pattern so written is read as what was
 meant: each of the three ways to open a class, lone members and ranges in any order, a
 `]` in first place, a `-` in last, an inverted range, a bracket nothing closes.
 */
module GlobSyntax {
  import opened Wrappers
  import opened Glob

  datatype Item = Lone(c: char) | Range(lo: char, hi: char)

  /** How the class begins: `[`, `[!` or `[^`. */
  datatype Opening = Plain | Bang | Caret

  datatype Part = Many | Any | Char(c: char) | Bracket(opening: Opening, items: seq<Item>)

  // ---- As it is written ------------------------------------------------------------------------

  function ItemText(item: Item): string {
    match item
    case Lone(c) => [c]
    case Range(lo, hi) => [lo, '-', hi]
  }

  function ItemsText(items: seq<Item>): string {
    if items == [] then "" else ItemText(items[0]) + ItemsText(items[1..])
  }

  function OpeningText(opening: Opening): string {
    match opening
    case Plain => "["
    case Bang => "[!"
    case Caret => "[^"
  }

  function PartText(part: Part): string {
    match part
    case Many => "*"
    case Any => "?"
    case Char(c) => [c]
    case Bracket(opening, items) => OpeningText(opening) + ItemsText(items) + "]"
  }

  function PatternText(parts: seq<Part>): string {
    if parts == [] then "" else PartText(parts[0]) + PatternText(parts[1..])
  }

  /** Members that can stand behind each other: none but the first begins with `]`, no range
      ends with it, and a lone one is followed by `-` only at the very end. */
  predicate Listable(items: seq<Item>, first: bool) {
    if items == [] then !first
    else
      && (first || ItemText(items[0])[0] != ']')
      && (items[0].Range? ==> items[0].hi != ']')
      && (items[0].Lone? && |items| > 1 && ItemText(items[1])[0] == '-' ==> items[1..] == [Lone('-')])
      && Listable(items[1..], false)
  }

  /** A plain opening is not followed by a negation sign, a character stands for itself, and a
      `[` does when no `]` comes after it. */
  predicate Writable(parts: seq<Part>) {
    parts != [] ==>
    && (match parts[0]
        case Char(c) => c != '*' && c != '?' && (c == '[' ==> ']' !in PatternText(parts[1..]))
        case Bracket(opening, items) =>
          Listable(items, true) && (opening.Plain? ==> ItemText(items[0])[0] != '!' && ItemText(items[0])[0] != '^')
        case _ => true)
    && Writable(parts[1..])
  }

  // ---- What it means ----------------------------------------------------------------------------

  predicate Has(item: Item, c: char) {
    match item
    case Lone(d) => c == d
    case Range(lo, hi) => lo <= c <= hi
  }

  predicate HasAny(items: seq<Item>, c: char) { exists k | 0 <= k < |items| :: Has(items[k], c) }

  predicate Admits(part: Part, c: char) {
    match part
    case Many => true
    case Any => true
    case Char(d) => c == d
    case Bracket(opening, items) =>
      HasAny(items, c) == opening.Plain?
  }

  ghost predicate Fits(parts: seq<Part>, name: string) {
    if parts == [] then name == ""
    else if parts[0].Many? then exists k :: 0 <= k <= |name| && Fits(parts[1..], name[k..])
    else name != "" && Admits(parts[0], name[0]) && Fits(parts[1..], name[1..])
  }

  // ---- A class is read back ----------------------------------------------------------------------

  ghost predicate Spanned(items: seq<Item>, spans: seq<Span>) {
    forall c :: InSpans(spans, c) <==> HasAny(items, c)
  }

  function SpanOf(item: Item): Span { if item.Lone? then Span(item.c, item.c) else Span(item.lo, item.hi) }

  lemma OneMoreItem(item: Item, items: seq<Item>, c: char)
    ensures HasAny([item] + items, c) <==> Has(item, c) || HasAny(items, c)
  {
    var all := [item] + items;
    if k :| 0 <= k < |items| && Has(items[k], c) { assert all[k + 1] == items[k]; }
    if Has(item, c) { assert all[0] == item; }
    if k :| 0 <= k < |all| && Has(all[k], c) { assert k > 0 ==> all[k] == items[k - 1]; }
  }

  lemma OneMoreSpan(span: Span, spans: seq<Span>, c: char)
    ensures InSpans([span] + spans, c) <==> span.lo <= c <= span.hi || InSpans(spans, c)
  {
    var all := [span] + spans;
    if i :| 0 <= i < |spans| && spans[i].lo <= c <= spans[i].hi { assert all[i + 1] == spans[i]; }
    if span.lo <= c <= span.hi { assert all[0] == span; }
  }

  lemma OneMore(item: Item, items: seq<Item>, spans: seq<Span>)
    requires Spanned(items, spans)
    ensures var span := SpanOf(item);
            Spanned([item] + items, if span.lo <= span.hi then [span] + spans else spans)
  {
    hide HasAny, InSpans;
    var span := SpanOf(item);
    var all := if span.lo <= span.hi then [span] + spans else spans;
    forall c ensures InSpans(all, c) <==> HasAny([item] + items, c) {
      OneMoreItem(item, items, c);
      OneMoreSpan(span, spans, c);
    }
  }

  lemma {:induction false} ItemsReadBack(prefix: string, items: seq<Item>, rest: string, first: bool)
    returns (spans: seq<Span>)
    requires Listable(items, first)
    ensures var p := prefix + ItemsText(items) + "]" + rest;
            ClassItems(p, |prefix|, first) == Some((spans, |prefix| + |ItemsText(items)| + 1))
    ensures Spanned(items, spans)
    decreases |items|
  {
    var p := prefix + ItemsText(items) + "]" + rest;
    if items == [] {
      assert p[|prefix|] == ']';
      return [];
    }
    var text, tail := ItemText(items[0]), ItemsText(items[1..]) + "]" + rest;
    Regroup(prefix, items, rest);
    var later := ItemsReadBack(prefix + text, items[1..], rest, false);
    TailStart(items, rest);
    hide ClassItems, ClassItem, HasAny, InSpans, Listable, ItemsText, ItemText;
    FirstItem(prefix, items[0], tail);
    var span := SpanOf(items[0]);
    spans := if span.lo <= span.hi then [span] + later else later;
    OneMore(items[0], items[1..], later);
    assert [items[0]] + items[1..] == items;
    ClassItemsStep(p, |prefix|, first, span, later, |prefix + text|, |prefix| + |ItemsText(items)| + 1);
  }

  lemma Regroup(prefix: string, items: seq<Item>, rest: string)
    requires items != []
    ensures var text, tail := ItemText(items[0]), ItemsText(items[1..]) + "]" + rest;
            var p := prefix + ItemsText(items) + "]" + rest;
            && p == (prefix + text) + ItemsText(items[1..]) + "]" + rest && p == prefix + text + tail
            && |ItemsText(items)| == |text| + |ItemsText(items[1..])| && |prefix| < |p| && p[|prefix|] == text[0]
  {
    ItemTextStarts(items[0]);
    StringsRegroup(prefix, ItemText(items[0]), ItemsText(items[1..]), rest);
    hide ItemText;
  }

  lemma ItemTextStarts(item: Item)
    ensures ItemText(item) != ""
  {}

  lemma StringsRegroup(prefix: string, text: string, more: string, rest: string)
    requires text != ""
    ensures prefix + (text + more) + "]" + rest == (prefix + text) + more + "]" + rest
    ensures prefix + (text + more) + "]" + rest == prefix + text + (more + "]" + rest)
    ensures (prefix + (text + more) + "]" + rest)[|prefix|] == text[0]
  {}

  lemma ClassItemsStep(p: string, i: nat, first: bool, span: Span, later: seq<Span>, next: nat, end: nat)
    requires i < |p| && (p[i] != ']' || first) && next <= |p|
    requires ClassItem(p, i) == (span, next) && ClassItems(p, next, false) == Some((later, end))
    ensures ClassItems(p, i, first) == Some((if span.lo <= span.hi then [span] + later else later, end))
  {
    hide ClassItem;
  }

  lemma FirstItem(prefix: string, item: Item, tail: string)
    requires tail != "" && (item.Range? ==> item.hi != ']')
    requires item.Lone? && tail[0] == '-' ==> |tail| > 1 && tail[1] == ']'
    ensures ClassItem(prefix + ItemText(item) + tail, |prefix|) == (SpanOf(item), |prefix| + |ItemText(item)|)
  {
    var p, text := prefix + ItemText(item) + tail, ItemText(item);
    assert forall k | 0 <= k < |text| :: p[|prefix| + k] == text[k];
    assert forall k | 0 <= k < |tail| :: p[|prefix| + |text| + k] == tail[k];
  }

  lemma TailStart(items: seq<Item>, rest: string)
    requires items != []
    requires items[0].Lone? && |items| > 1 && ItemText(items[1])[0] == '-' ==> items[1..] == [Lone('-')]
    ensures var tail := ItemsText(items[1..]) + "]" + rest;
            tail != "" && (items[0].Lone? && tail[0] == '-' ==> |tail| > 1 && tail[1] == ']')
  {
    var tail := ItemsText(items[1..]) + "]" + rest;
    if |items| == 1 {
      assert tail[0] == ']';
    } else {
      assert tail[0] == ItemText(items[1])[0];
      if items[0].Lone? && tail[0] == '-' {
        assert items[1..][1..] == [] && ItemsText(items[1..]) == "-" + "";
        assert tail[1] == ']';
      }
    }
  }

  /** A class as written, wherever it stands and whatever follows: its end, and who is in it. */
  lemma BracketReadBack(prefix: string, opening: Opening, items: seq<Item>, rest: string)
    requires Writable([Bracket(opening, items)])
    ensures var text := PartText(Bracket(opening, items));
            var r := ElementAt(prefix + text + rest, |prefix|);
            && r.1 == |prefix + text|
            && forall c :: Accepts(r.0, c) <==> Admits(Bracket(opening, items), c)
  {
    var open, body := OpeningText(opening), ItemsText(items);
    var p := prefix + PartText(Bracket(opening, items)) + rest;
    assert p == (prefix + open) + body + "]" + rest;
    var spans := ItemsReadBack(prefix + open, items, rest, true);
    assert body[0] == ItemText(items[0])[0];
    assert p[|prefix|] == '[' && p[|prefix| + |open|] == body[0];
    if !opening.Plain? { assert p[|prefix| + 1] == open[1]; }
    hide ClassItems, ItemsText, ItemText, Listable, ElementAt;
    BracketElement(p, |prefix|, opening, spans, |prefix| + |open| + |body| + 1);
  }

  lemma BracketElement(p: string, i: nat, opening: Opening, spans: seq<Span>, end: nat)
    requires i + |OpeningText(opening)| < |p| && p[i] == '['
    requires if opening.Plain? then p[i + 1] != '!' && p[i + 1] != '^' else p[i + 1] == OpeningText(opening)[1]
    requires ClassItems(p, i + |OpeningText(opening)|, true) == Some((spans, end))
    ensures ElementAt(p, i) == (Class(!opening.Plain?, spans), end)
  {
    hide ClassItems;
  }

  /** A bracket that nothing closes is a character like any other. */
  lemma UnclosedBracket(p: string, i: nat)
    requires i < |p| && p[i] == '[' && ']' !in p[i + 1..]
    ensures ElementAt(p, i) == (Literal('['), i + 1)
  {
    forall k | i + 1 <= k < |p| ensures p[k] != ']' { assert p[i + 1..][k - i - 1] == p[k]; }
    NothingCloses(p, i + 1, true);
    if i + 2 <= |p| { NothingCloses(p, i + 2, true); }
  }

  lemma {:induction false} NothingCloses(p: string, j: nat, first: bool)
    requires j <= |p| && forall k | j <= k < |p| :: p[k] != ']'
    ensures ClassItems(p, j, first).None?
    decreases |p| - j
  {
    if j < |p| { NothingCloses(p, ClassItem(p, j).1, false); }
  }

  // ---- A pattern means what was written -----------------------------------------------------------

  lemma PartReadBack(prefix: string, part: Part, rest: string)
    requires !part.Many? && Writable([part]) && (part == Char('[') ==> ']' !in rest)
    ensures var text := PartText(part);
            var p := prefix + text + rest;
            && p[|prefix|] != '*' && ElementAt(p, |prefix|).1 == |prefix + text|
            && forall c :: Accepts(ElementAt(p, |prefix|).0, c) <==> Admits(part, c)
  {
    var p := prefix + PartText(part) + rest;
    assert p[|prefix|] == PartText(part)[0];
    match part
    case Bracket(opening, items) =>
      BracketReadBack(prefix, opening, items, rest);
    case Char(c) =>
      if c == '[' {
        assert p[|prefix| + 1..] == rest;
        UnclosedBracket(p, |prefix|);
      }
    case Any =>
  }

  lemma {:induction false} ReadFrom(prefix: string, parts: seq<Part>, name: string)
    requires Writable(parts)
    ensures Matches(Tokens(prefix + PatternText(parts), |prefix|), name) <==> Fits(parts, name)
    decreases |parts|
  {
    var p := prefix + PatternText(parts);
    if parts != [] {
      var text := PartText(parts[0]);
      var longer := prefix + text;
      assert p == longer + PatternText(parts[1..]);
      if parts[0].Many? {
        forall k | 0 <= k <= |name| { ReadFrom(longer, parts[1..], name[k..]); }
        assert p[|prefix|] == '*';
        StarTakesAny(Tokens(p, |longer|), name);
        assert Tokens(p, |prefix|) == [Star] + Tokens(p, |longer|);
      } else {
        WritableFirst(parts);
        PartReadBack(prefix, parts[0], PatternText(parts[1..]));
        var e := ElementAt(p, |prefix|).0;
        assert Tokens(p, |prefix|) == [One(e)] + Tokens(p, |longer|);
        if name != "" { ReadFrom(longer, parts[1..], name[1..]); }
      }
    }
  }

  lemma WritableFirst(parts: seq<Part>)
    requires parts != [] && Writable(parts)
    ensures Writable([parts[0]]) && (parts[0] == Char('[') ==> ']' !in PatternText(parts[1..]))
  {
    assert [parts[0]][1..] == [];
  }

  /** A star takes any number of characters. */
  lemma {:induction false} StarTakesAny(ts: seq<Token>, name: string)
    ensures Matches([Star] + ts, name) <==> exists k :: 0 <= k <= |name| && Matches(ts, name[k..])
    decreases |name|
  {
    assert ([Star] + ts)[1..] == ts && name[0..] == name;
    if name != "" {
      StarTakesAny(ts, name[1..]);
      if k :| 0 <= k <= |name| && Matches(ts, name[k..]) {
        if k > 0 { assert name[1..][k - 1..] == name[k..]; }
      }
      if k :| 0 <= k <= |name[1..]| && Matches(ts, name[1..][k..]) { assert name[1..][k..] == name[k + 1..]; }
    }
  }

  /** The glob so written matches exactly the names that fit it. */
  lemma PatternMeansWhatIsWritten(parts: seq<Part>, name: string)
    requires Writable(parts)
    ensures GlobMatches(PatternText(parts), name) <==> Fits(parts, name)
  {
    assert "" + PatternText(parts) == PatternText(parts);
    ReadFrom("", parts, name);
  }
}
