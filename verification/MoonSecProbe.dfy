/** Choosing the layout and tag map of a payload, and decoding it through their names. */
module MoonSecProbe {
  import opened Bytes
  import opened MoonSecFormat
  import opened MoonSecTotals
  import opened MoonSecReaders
  import opened MoonSecTree
  import opened MoonSecText

  // ---------- the candidates ----------

  /** One slot each for booleans, numbers and strings; the fourth stays nil. */
  function TagMap(booleanTag: nat, numberTag: nat, stringTag: nat): (r: seq<Kind>)
    requires booleanTag < 4 && numberTag < 4 && stringTag < 4
    ensures |r| == 4
  {
    UNKNOWN_TAGS[booleanTag := Boolean][numberTag := Number][stringTag := String]
  }

  predicate Distinct3(a: nat, b: nat, c: nat) {
    a < 4 && b < 4 && c < 4 && a != b && a != c && b != c
  }

  ghost predicate IsTagMap(tags: seq<Kind>) {
    exists b, n, s :: Distinct3(b, n, s) && tags == TagMap(b, n, s)
  }

  function StepAt(k: nat): Step {
    if k == 0 then Constants else if k == 1 then Instructions else if k == 2 then Functions else Parameters
  }

  function RankOf(step: Step): (k: nat)
    ensures k < 4 && StepAt(k) == step
  {
    match step {
      case Constants => 0
      case Instructions => 1
      case Functions => 2
      case Parameters => 3
    }
  }

  /** The layout with the given first three steps. */
  function Layout(a: nat, b: nat, c: nat): seq<Step>
    requires Distinct3(a, b, c)
  {
    [StepAt(a), StepAt(b), StepAt(c), StepAt(6 - a - b - c)]
  }

  lemma LayoutIsLayout(a: nat, b: nat, c: nat)
    requires Distinct3(a, b, c)
    ensures IsLayout(Layout(a, b, c))
  {
  }

  lemma EveryLayout(layout: seq<Step>)
    requires IsLayout(layout)
    ensures Distinct3(RankOf(layout[0]), RankOf(layout[1]), RankOf(layout[2]))
    ensures layout == Layout(RankOf(layout[0]), RankOf(layout[1]), RankOf(layout[2]))
  {
    assert layout[0] != layout[1] && layout[0] != layout[2] && layout[1] != layout[2];
    assert layout[3] != layout[0] && layout[3] != layout[1] && layout[3] != layout[2];
  }

  // ---------- the order of the candidates ----------

  /** A layout's place in lexicographic order, and a tag map's in that of the three loops. */
  function LayoutCode(layout: seq<Step>): nat
    requires |layout| == 4
  {
    16 * RankOf(layout[0]) + 4 * RankOf(layout[1]) + RankOf(layout[2])
  }

  function SlotOf(tags: seq<Kind>, kind: Kind): (slot: nat)
    requires |tags| == 4
    ensures slot < 4 && (kind in tags ==> tags[slot] == kind)
  {
    if tags[0] == kind then 0 else if tags[1] == kind then 1 else if tags[2] == kind then 2 else 3
  }

  function TagCode(tags: seq<Kind>): (code: nat)
    requires |tags| == 4
    ensures code < 64
  {
    16 * SlotOf(tags, Boolean) + 4 * SlotOf(tags, Number) + SlotOf(tags, String)
  }

  function Place(layout: seq<Step>, tags: seq<Kind>): nat
    requires |layout| == |tags| == 4
  {
    64 * LayoutCode(layout) + TagCode(tags)
  }

  lemma TagCodeOf(b: nat, n: nat, s: nat)
    requires Distinct3(b, n, s)
    ensures TagCode(TagMap(b, n, s)) == 16 * b + 4 * n + s
  {
  }

  lemma LayoutCodeOf(a: nat, b: nat, c: nat)
    requires Distinct3(a, b, c)
    ensures LayoutCode(Layout(a, b, c)) == 16 * a + 4 * b + c
  {
    assert RankOf(StepAt(a)) == a && RankOf(StepAt(b)) == b && RankOf(StepAt(c)) == c;
  }

  lemma PlaceOf(layout: seq<Step>, tags: seq<Kind>) returns (a: nat, b: nat, c: nat, x: nat, y: nat, z: nat)
    requires IsLayout(layout) && IsTagMap(tags)
    ensures Distinct3(a, b, c) && layout == Layout(a, b, c) && Distinct3(x, y, z) && tags == TagMap(x, y, z)
    ensures Place(layout, tags) == 64 * (16 * a + 4 * b + c) + 16 * x + 4 * y + z
  {
    EveryLayout(layout);
    a, b, c := RankOf(layout[0]), RankOf(layout[1]), RankOf(layout[2]);
    x, y, z :| Distinct3(x, y, z) && tags == TagMap(x, y, z);
    TagCodeOf(x, y, z);
  }

  lemma DigitsUnique(a: nat, b: nat, c: nat, x: nat, y: nat, z: nat, a': nat, b': nat, c': nat, x': nat, y': nat, z': nat)
    requires a < 4 && b < 4 && c < 4 && x < 4 && y < 4 && z < 4 && a' < 4 && b' < 4 && c' < 4 && x' < 4 && y' < 4 && z' < 4
    requires 64 * (16 * a + 4 * b + c) + 16 * x + 4 * y + z == 64 * (16 * a' + 4 * b' + c') + 16 * x' + 4 * y' + z'
    ensures a == a' && b == b' && c == c' && x == x' && y == y' && z == z'
  {
  }

  /** Different candidates have different places. */
  lemma PlaceUnique(layout: seq<Step>, tags: seq<Kind>, layout': seq<Step>, tags': seq<Kind>)
    requires IsLayout(layout) && IsTagMap(tags) && IsLayout(layout') && IsTagMap(tags')
    requires Place(layout, tags) == Place(layout', tags')
    ensures layout == layout' && tags == tags'
  {
    var a, b, c, x, y, z := PlaceOf(layout, tags);
    var a', b', c', x', y', z' := PlaceOf(layout', tags');
    DigitsUnique(a, b, c, x, y, z, a', b', c', x', y', z');
  }

  // ---------- scores ----------

  function Capped(x: nat, cap: nat): nat {
    if x > cap then cap else x
  }

  function Score(m: Metrics): nat {
    Capped(m.instructions, 1000000) + Capped(m.functions, 100000) * 3 + Capped(m.strings, 100000) * 4 + Capped(m.nonNilConstants, 100000)
  }

  datatype Best = Missing | Found(score: nat, metrics: Metrics, layout: seq<Step>, tags: seq<Kind>)

  /** A find is an accepted candidate with its own totals. */
  ghost predicate Sound(bytes: seq<Byte>, best: Best) {
    best.Found? ==>
      && IsLayout(best.layout) && IsTagMap(best.tags) && Accepted(bytes, best.layout, best.tags)
      && best.metrics == Denotes(bytes, best.layout, best.tags).metrics && best.score == Score(best.metrics)
  }

  /** The candidate, if accepted, does not beat the find, and does not equal it if it comes before it. */
  ghost predicate Covers(bytes: seq<Byte>, best: Best, layout: seq<Step>, tags: seq<Kind>)
    requires |layout| == |tags| == 4
  {
    Accepted(bytes, layout, tags) ==>
      best.Found? && |best.layout| == |best.tags| == 4
      && var score := Score(Denotes(bytes, layout, tags).metrics);
         score <= best.score && (Place(layout, tags) < Place(best.layout, best.tags) ==> score < best.score)
  }

  /** The find is the one before, or beats it. */
  predicate AtLeast(best: Best, before: Best) {
    best == before || (best.Found? && |best.layout| == |best.tags| == 4 && (before.Found? ==> before.score < best.score))
  }

  /** Whatever has been found comes before the candidate at `place`. */
  predicate FoundBefore(best: Best, place: nat) {
    best.Found? ==> |best.layout| == |best.tags| == 4 && Place(best.layout, best.tags) < place
  }

  lemma CoversStill(bytes: seq<Byte>, best: Best, before: Best, layout: seq<Step>, tags: seq<Kind>)
    requires |layout| == |tags| == 4 && AtLeast(best, before) && Covers(bytes, before, layout, tags)
    ensures Covers(bytes, best, layout, tags)
  {
  }

  // ---------- the search ----------

  method TryCandidate(bytes: seq<Byte>, layout: seq<Step>, tags: seq<Kind>, best: Best) returns (best': Best)
    requires Sound(bytes, best) && IsLayout(layout) && IsTagMap(tags) && FoundBefore(best, Place(layout, tags))
    ensures Sound(bytes, best') && AtLeast(best', best) && Covers(bytes, best', layout, tags)
    ensures FoundBefore(best', Place(layout, tags) + 1)
  {
    best' := best;
    var reader := new SerializedReader(bytes, layout, tags);
    var ok, metrics := reader.Parse();
    if ok {
      var score := Score(metrics);
      if best.Missing? || score > best.score {
        best' := Found(score, metrics, layout, tags);
      }
    }
  }

  ghost predicate CoversStrings(bytes: seq<Byte>, best: Best, layout: seq<Step>, b: nat, n: nat, upTo: nat)
    requires |layout| == 4
  {
    forall s: nat :: s < upTo && Distinct3(b, n, s) ==> Covers(bytes, best, layout, TagMap(b, n, s))
  }

  lemma StringsStill(bytes: seq<Byte>, best: Best, before: Best, layout: seq<Step>, b: nat, n: nat, upTo: nat)
    requires |layout| == 4 && AtLeast(best, before) && CoversStrings(bytes, before, layout, b, n, upTo)
    ensures CoversStrings(bytes, best, layout, b, n, upTo)
  {
    forall s: nat | s < upTo && Distinct3(b, n, s)
      ensures Covers(bytes, best, layout, TagMap(b, n, s))
    {
      CoversStill(bytes, best, before, layout, TagMap(b, n, s));
    }
  }

  /** From the find `start`, all string slots below `s` have been tried. */
  ghost predicate StringsTried(bytes: seq<Byte>, start: Best, best: Best, layout: seq<Step>, b: nat, n: nat, s: nat)
    requires |layout| == 4
  {
    && Sound(bytes, best) && AtLeast(best, start) && CoversStrings(bytes, best, layout, b, n, s)
    && FoundBefore(best, 64 * LayoutCode(layout) + 16 * b + 4 * n + s)
  }

  method TryString(bytes: seq<Byte>, layout: seq<Step>, b: nat, n: nat, s: nat, ghost start: Best, best: Best) returns (best': Best)
    requires IsLayout(layout) && b < 4 && n < 4 && s < 4 && b != n && StringsTried(bytes, start, best, layout, b, n, s)
    ensures StringsTried(bytes, start, best', layout, b, n, s + 1)
  {
    best' := best;
    if s != b && s != n {
      assert Distinct3(b, n, s);
      TagCodeOf(b, n, s);
      best' := TryCandidate(bytes, layout, TagMap(b, n, s), best);
      StringsStill(bytes, best', best, layout, b, n, s);
    }
  }

  method TryStrings(bytes: seq<Byte>, layout: seq<Step>, b: nat, n: nat, best: Best) returns (best': Best)
    requires Sound(bytes, best) && IsLayout(layout) && b < 4 && n < 4 && b != n
    requires FoundBefore(best, 64 * LayoutCode(layout) + 16 * b + 4 * n)
    ensures StringsTried(bytes, best, best', layout, b, n, 4)
  {
    best' := best;
    for s := 0 to 4
      invariant StringsTried(bytes, best, best', layout, b, n, s)
    {
      best' := TryString(bytes, layout, b, n, s, best, best');
    }
  }

  ghost predicate CoversNumbers(bytes: seq<Byte>, best: Best, layout: seq<Step>, b: nat, upTo: nat)
    requires |layout| == 4
  {
    forall n: nat :: n < upTo && n != b ==> CoversStrings(bytes, best, layout, b, n, 4)
  }

  lemma NumbersStillBelow(bytes: seq<Byte>, best: Best, before: Best, layout: seq<Step>, b: nat, upTo: nat)
    requires |layout| == 4 && AtLeast(best, before) && CoversNumbers(bytes, before, layout, b, upTo)
    ensures CoversNumbers(bytes, best, layout, b, upTo)
  {
    forall n: nat | n < upTo && n != b
      ensures CoversStrings(bytes, best, layout, b, n, 4)
    {
      StringsStill(bytes, best, before, layout, b, n, 4);
    }
  }

  ghost predicate NumbersTried(bytes: seq<Byte>, start: Best, best: Best, layout: seq<Step>, b: nat, n: nat)
    requires |layout| == 4
  {
    && Sound(bytes, best) && AtLeast(best, start) && CoversNumbers(bytes, best, layout, b, n)
    && FoundBefore(best, 64 * LayoutCode(layout) + 16 * b + 4 * n)
  }

  method TryNumber(bytes: seq<Byte>, layout: seq<Step>, b: nat, n: nat, ghost start: Best, best: Best) returns (best': Best)
    requires IsLayout(layout) && b < 4 && n < 4 && NumbersTried(bytes, start, best, layout, b, n)
    ensures NumbersTried(bytes, start, best', layout, b, n + 1)
  {
    best' := best;
    if n != b {
      best' := TryStrings(bytes, layout, b, n, best);
      NumbersStillBelow(bytes, best', best, layout, b, n);
    }
  }

  method TryNumbers(bytes: seq<Byte>, layout: seq<Step>, b: nat, best: Best) returns (best': Best)
    requires Sound(bytes, best) && IsLayout(layout) && b < 4 && FoundBefore(best, 64 * LayoutCode(layout) + 16 * b)
    ensures NumbersTried(bytes, best, best', layout, b, 4)
  {
    best' := best;
    for n := 0 to 4
      invariant NumbersTried(bytes, best, best', layout, b, n)
    {
      best' := TryNumber(bytes, layout, b, n, best, best');
    }
  }

  ghost predicate CoversLayout(bytes: seq<Byte>, best: Best, layout: seq<Step>, upTo: nat)
    requires |layout| == 4
  {
    forall b: nat :: b < upTo ==> CoversNumbers(bytes, best, layout, b, 4)
  }

  lemma LayoutStill(bytes: seq<Byte>, best: Best, before: Best, layout: seq<Step>, upTo: nat)
    requires |layout| == 4 && AtLeast(best, before) && CoversLayout(bytes, before, layout, upTo)
    ensures CoversLayout(bytes, best, layout, upTo)
  {
    forall b: nat | b < upTo
      ensures CoversNumbers(bytes, best, layout, b, 4)
    {
      NumbersStillBelow(bytes, best, before, layout, b, 4);
    }
  }

  ghost predicate LayoutTried(bytes: seq<Byte>, start: Best, best: Best, layout: seq<Step>, b: nat)
    requires |layout| == 4
  {
    && Sound(bytes, best) && AtLeast(best, start) && CoversLayout(bytes, best, layout, b)
    && FoundBefore(best, 64 * LayoutCode(layout) + 16 * b)
  }

  method TryBoolean(bytes: seq<Byte>, layout: seq<Step>, b: nat, ghost start: Best, best: Best) returns (best': Best)
    requires IsLayout(layout) && b < 4 && LayoutTried(bytes, start, best, layout, b)
    ensures LayoutTried(bytes, start, best', layout, b + 1)
  {
    best' := TryNumbers(bytes, layout, b, best);
    LayoutStill(bytes, best', best, layout, b);
  }

  method TryLayout(bytes: seq<Byte>, layout: seq<Step>, best: Best) returns (best': Best)
    requires Sound(bytes, best) && IsLayout(layout) && FoundBefore(best, 64 * LayoutCode(layout))
    ensures LayoutTried(bytes, best, best', layout, 4)
  {
    best' := best;
    for b := 0 to 4
      invariant LayoutTried(bytes, best, best', layout, b)
    {
      best' := TryBoolean(bytes, layout, b, best, best');
    }
  }

  /** The layouts tried before `(a, b, c)`, in the order of the enumeration. */
  predicate Before(a: nat, b: nat, c: nat, a': nat, b': nat, c': nat) {
    a < a' || (a == a' && (b < b' || (b == b' && c < c')))
  }

  ghost predicate CoversBefore(bytes: seq<Byte>, best: Best, a: nat, b: nat, c: nat) {
    forall x: nat, y: nat, z: nat {:trigger Layout(x, y, z)} ::
      Distinct3(x, y, z) && Before(x, y, z, a, b, c) ==> CoversLayout(bytes, best, Layout(x, y, z), 4)
  }

  lemma BeforeStill(bytes: seq<Byte>, best: Best, before: Best, a: nat, b: nat, c: nat)
    requires AtLeast(best, before) && CoversBefore(bytes, before, a, b, c)
    requires Distinct3(a, b, c) ==> CoversLayout(bytes, best, Layout(a, b, c), 4)
    ensures CoversBefore(bytes, best, a, b, c + 1)
  {
    forall x: nat, y: nat, z: nat | Distinct3(x, y, z) && Before(x, y, z, a, b, c + 1)
      ensures CoversLayout(bytes, best, Layout(x, y, z), 4)
    {
      if Before(x, y, z, a, b, c) {
        LayoutStill(bytes, best, before, Layout(x, y, z), 4);
      }
    }
  }

  /** The find is the first of the best candidates, if any candidate is accepted. */
  ghost predicate IsChoice(bytes: seq<Byte>, best: Best) {
    Sound(bytes, best) && forall layout, tags :: IsLayout(layout) && IsTagMap(tags) ==> Covers(bytes, best, layout, tags)
  }

  /** There is one such find only. */
  lemma ChoiceUnique(bytes: seq<Byte>, best: Best, other: Best)
    requires IsChoice(bytes, best) && IsChoice(bytes, other)
    ensures best == other
  {
    if best.Found? {
      assert Covers(bytes, other, best.layout, best.tags);
    }
    if other.Found? {
      assert Covers(bytes, best, other.layout, other.tags);
    }
    if best.Found? && other.Found? {
      PlaceUnique(best.layout, best.tags, other.layout, other.tags);
    }
  }

  /** Tries every layout in lexicographic order, and every tag map for each; the first of the best wins. */
  method Probe(bytes: seq<Byte>) returns (best: Best)
    ensures IsChoice(bytes, best)
  {
    best := Missing;
    var a, b, c := 0, 0, 0;
    while a < 4
      invariant a <= 4 && b < 4 && c < 4 && Sound(bytes, best) && CoversBefore(bytes, best, a, b, c)
      invariant FoundBefore(best, 64 * (16 * a + 4 * b + c))
      decreases 4 - a, 4 - b, 4 - c
    {
      ghost var before := best;
      if a != b && a != c && b != c {
        LayoutIsLayout(a, b, c);
        LayoutCodeOf(a, b, c);
        best := TryLayout(bytes, Layout(a, b, c), best);
      }
      BeforeStill(bytes, best, before, a, b, c);
      if c < 3 {
        c := c + 1;
      } else if b < 3 {
        b, c := b + 1, 0;
      } else {
        a, b, c := a + 1, 0, 0;
      }
    }
    forall layout, tags | IsLayout(layout) && IsTagMap(tags)
      ensures Covers(bytes, best, layout, tags)
    {
      EveryLayout(layout);
      assert CoversLayout(bytes, best, layout, 4);
      var bt, nt, st :| Distinct3(bt, nt, st) && tags == TagMap(bt, nt, st);
      assert CoversNumbers(bytes, best, layout, bt, 4);
      assert CoversStrings(bytes, best, layout, bt, nt, 4);
    }
  }

  // ---------- decoding ----------

  datatype Report = NotRecovered | InternalDecodeError | Extracted(root: Tree, metrics: Metrics)

  /**
   Finds a layout, writes it down as text, reads the text back and decodes the tree under it. The internal error cannot
   happen; a tree is reported exactly if some layout and tag map make the bytes acceptable. It is the tree the bytes denote
   under the first of the best candidates, with its totals.
   */
  method InspectVirtualIR(bytes: seq<Byte>) returns (report: Report)
    ensures !report.InternalDecodeError?
    ensures report.Extracted? <==> exists layout, tags :: IsLayout(layout) && IsTagMap(tags) && Accepted(bytes, layout, tags)
    ensures report.Extracted? ==> exists best :: IsChoice(bytes, best) && Reports(bytes, best, report)
    ensures report.Extracted? ==>
      && report.metrics == Totals(report.root) && report.metrics.instructions > 0
      && report.metrics.functions <= MAX_FUNCTIONS && report.metrics.instructions <= MAX_INSTRUCTIONS
      && report.metrics.constants <= MAX_CONSTANTS && Height(report.root) <= MAX_PROTOTYPE_DEPTH
  {
    var best := Probe(bytes);
    if best.Missing? {
      return NotRecovered;
    }
    var layoutText := LayoutName(best.layout);
    var tagText := TagName(best.tags);
    var layoutOk, layout := DecodeLayout(layoutText);
    var tagsOk, tags := DecodeTags(tagText);
    LayoutReadsBack(best.layout, layoutText, layoutOk, layout);
    TagsRoundTrip(best.tags);
    if !layoutOk || !tagsOk {
      return InternalDecodeError;
    }
    var reader := new VirtualTreeReader(bytes, layout, tags);
    var ok, root := reader.Parse();
    if !ok {
      return InternalDecodeError;
    }
    DenotedTotals(bytes, layout, tags);
    report := Extracted(root, best.metrics);
    assert Reports(bytes, best, report);
  }

  /** The reported tree is what the whole of the bytes denotes under the chosen layout and tags. */
  ghost predicate Reports(bytes: seq<Byte>, best: Best, report: Report) {
    best.Found? && report.Extracted? && Denotes(bytes, best.layout, best.tags) == Some(report.root, |bytes|, report.metrics)
  }

  lemma LayoutReadsBack(layout: seq<Step>, text: string, ok: bool, decoded: seq<Step>)
    requires IsLayout(layout) && text == Join(StepNames(layout))
    requires ok <==> |Fields(text)| == 4 && forall k :: 0 <= k < 4 ==> Known(Fields(text)[k])
    requires ok ==> IsLayoutText(Fields(text), decoded)
    ensures ok && decoded == layout
  {
    LayoutRoundTrip(layout);
    forall k | 0 <= k < 4
      ensures Known(Fields(text)[k])
    {
      assert Names(StepNames(layout)[k], layout[k]);
    }
    LayoutTextUnique(Fields(text), layout, decoded);
  }
}
