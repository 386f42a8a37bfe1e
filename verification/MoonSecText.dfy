/** Layouts and tag maps as text, and back. */
module MoonSecText {
  import opened MoonSecFormat
  import opened Optional

  // ---------- comma-separated fields ----------

  function Comma(s: string): (e: nat)
    ensures e <= |s| && (e < |s| ==> s[e] == ',') && forall k :: 0 <= k < e ==> s[k] != ','
  {
    if s == [] || s[0] == ',' then 0 else 1 + Comma(s[1..])
  }

  /** The fields a line reader with delimiter ',' yields; nothing is read once the text is used up. */
  function Fields(s: string): seq<string>
    decreases |s|
  {
    if s == [] then []
    else
      var e := Comma(s);
      if e == |s| then [s] else [s[..e]] + Fields(s[e + 1..])
  }

  function Join(fields: seq<string>): string {
    if fields == [] then []
    else if |fields| == 1 then fields[0]
    else Join(fields[..|fields| - 1]) + [','] + fields[|fields| - 1]
  }

  predicate Plain(field: string) {
    field != [] && forall k :: 0 <= k < |field| ==> field[k] != ','
  }

  lemma CommaAfter(field: string, rest: string)
    requires Plain(field)
    ensures Comma(field + [','] + rest) == |field| && Comma(field) == |field|
  {
    var s := field + [','] + rest;
    assert s[|field|] == ',' && forall k :: 0 <= k < |field| ==> s[k] == field[k];
  }

  /** A field in front of others. */
  lemma FieldsOfCons(field: string, rest: string)
    requires Plain(field)
    ensures Fields(field + [','] + rest) == [field] + Fields(rest) && Fields(field) == [field]
  {
    CommaAfter(field, rest);
    var s := field + [','] + rest;
    assert s[..|field|] == field && s[|field| + 1..] == rest;
  }

  function JoinFront(fields: seq<string>): string {
    if fields == [] then []
    else if |fields| == 1 then fields[0]
    else fields[0] + [','] + JoinFront(fields[1..])
  }

  lemma {:induction false} JoinIsJoinFront(fields: seq<string>)
    ensures Join(fields) == JoinFront(fields)
    decreases |fields|
  {
    if |fields| > 2 {
      var front, last := fields[..|fields| - 1], fields[|fields| - 1];
      JoinIsJoinFront(front);
      JoinIsJoinFront(fields[1..]);
      JoinIsJoinFront(front[1..]);
      assert fields[1..][..|fields| - 2] == front[1..];
    }
  }

  /** Splitting undoes joining, for fields without commas. */
  lemma {:induction false} FieldsOfJoinFront(fields: seq<string>)
    requires forall k :: 0 <= k < |fields| ==> Plain(fields[k])
    ensures Fields(JoinFront(fields)) == fields
    decreases |fields|
  {
    if |fields| == 1 {
      FieldsOfCons(fields[0], []);
    } else if |fields| > 1 {
      FieldsOfJoinFront(fields[1..]);
      FieldsOfCons(fields[0], JoinFront(fields[1..]));
    }
  }

  // ---------- layouts ----------

  function StepName(step: Step): string {
    match step {
      case Constants => "constants"
      case Instructions => "instructions"
      case Functions => "functions"
      case Parameters => "parameters"
    }
  }

  function StepOf(name: string): Maybe<Step> {
    if name == "constants" then Just(Constants)
    else if name == "instructions" then Just(Instructions)
    else if name == "functions" then Just(Functions)
    else if name == "parameters" then Just(Parameters)
    else Nothing
  }

  function StepNames(layout: seq<Step>): (r: seq<string>)
    ensures |r| == |layout| && forall k :: 0 <= k < |r| ==> r[k] == StepName(layout[k])
  {
    seq(|layout|, k requires 0 <= k < |layout| => StepName(layout[k]))
  }

  /** Joins with commas, as the naming loops do. */
  method JoinAll(fields: seq<string>) returns (text: string)
    ensures text == Join(fields)
  {
    text := [];
    for index := 0 to |fields|
      invariant text == Join(fields[..index])
    {
      if index > 0 {
        text := text + [','];
      }
      text := text + fields[index];
      assert fields[..index + 1][..index] == fields[..index];
    }
    assert fields[..|fields|] == fields;
  }

  method LayoutName(layout: seq<Step>) returns (text: string)
    ensures text == Join(StepNames(layout))
  {
    text := JoinAll(StepNames(layout));
  }

  /** Reads one field behind `cursor`. */
  method GetLine(text: string, cursor: nat) returns (value: string, next: nat)
    requires cursor < |text|
    ensures cursor < next <= |text|
    ensures Fields(text[cursor..]) == [value] + Fields(text[next..])
  {
    var rest := text[cursor..];
    var e := Comma(rest);
    value := rest[..e];
    next := if e < |rest| then cursor + e + 1 else |text|;
    if e < |rest| {
      assert rest[e + 1..] == text[next..];
    } else {
      assert value == rest && text[next..] == [];
    }
  }

  /** The fields name a layout. */
  ghost predicate IsLayoutText(fields: seq<string>, layout: seq<Step>) {
    |fields| == |layout| && forall k :: 0 <= k < |fields| ==> Names(fields[k], layout[k])
  }

  predicate Names(field: string, step: Step) {
    StepOf(field) == Just(step)
  }

  predicate Known(field: string) {
    StepOf(field).Just?
  }

  /** What has been read in front of the cursor, and what is left. */
  ghost predicate Split(all: seq<string>, done: seq<string>, rest: string) {
    all == done + Fields(rest)
  }

  lemma SplitStep(all: seq<string>, done: seq<string>, rest: string, value: string, rest': string)
    requires Split(all, done, rest) && Fields(rest) == [value] + Fields(rest')
    ensures Split(all, done + [value], rest') && |done| < |all| && all[|done|] == value
  {
    assert done + ([value] + Fields(rest')) == (done + [value]) + Fields(rest');
  }

  /** Succeeds exactly on four known step names. */
  method DecodeLayout(encoded: string) returns (ok: bool, layout: seq<Step>)
    ensures ok <==> |Fields(encoded)| == 4 && forall k :: 0 <= k < 4 ==> Known(Fields(encoded)[k])
    ensures ok ==> IsLayoutText(Fields(encoded), layout)
  {
    layout := [];
    var cursor := 0;
    ghost var done: seq<string>, all := [], Fields(encoded);
    assert encoded[0..] == encoded;
    while cursor < |encoded|
      invariant 0 <= cursor <= |encoded| && |layout| <= 4
      invariant Split(all, done, encoded[cursor..]) && IsLayoutText(done, layout)
    {
      var value;
      ghost var from := cursor;
      value, cursor := GetLine(encoded, cursor);
      SplitStep(all, done, encoded[from..], value, encoded[cursor..]);
      if |layout| >= 4 {
        return false, layout;
      }
      var step := StepOf(value);
      if step.Nothing? {
        assert !Known(all[|done|]);
        return false, layout;
      }
      assert Names(value, step.value);
      layout := layout + [step.value];
      done := done + [value];
    }
    assert all == done;
    assert forall k :: 0 <= k < |done| ==> Names(done[k], layout[k]) ==> Known(done[k]);
    ok := |layout| == 4;
  }

  lemma StepReads(step: Step)
    ensures Names(StepName(step), step) && Plain(StepName(step))
  {
  }

  /** A layout survives its name. */
  lemma LayoutRoundTrip(layout: seq<Step>)
    ensures Fields(Join(StepNames(layout))) == StepNames(layout)
    ensures IsLayoutText(StepNames(layout), layout)
  {
    var names := StepNames(layout);
    forall k | 0 <= k < |names|
      ensures Plain(names[k]) && Names(names[k], layout[k])
    {
      StepReads(layout[k]);
    }
    JoinIsJoinFront(names);
    FieldsOfJoinFront(names);
  }

  lemma LayoutTextUnique(fields: seq<string>, x: seq<Step>, y: seq<Step>)
    requires IsLayoutText(fields, x) && IsLayoutText(fields, y)
    ensures x == y
  {
    forall k | 0 <= k < |x|
      ensures x[k] == y[k]
    {
      assert Names(fields[k], x[k]) && Names(fields[k], y[k]);
    }
  }

  // ---------- tag maps ----------

  function KindName(kind: Kind): string {
    match kind {
      case Unknown => "nil"
      case Boolean => "boolean"
      case Number => "number"
      case String => "string"
    }
  }

  function KindNamed(name: string): Maybe<Kind> {
    if name == "nil" then Just(Unknown)
    else if name == "boolean" then Just(Boolean)
    else if name == "number" then Just(Number)
    else if name == "string" then Just(String)
    else Nothing
  }

  function Digit(k: nat): char
    requires k < 10
  {
    '0' + k as char
  }

  function TagField(k: nat, kind: Kind): string
    requires k < 10
  {
    [Digit(k), ':'] + KindName(kind)
  }

  function TagFields(tags: seq<Kind>): (r: seq<string>)
    requires |tags| <= 10
    ensures |r| == |tags| && forall k :: 0 <= k < |r| ==> r[k] == TagField(k, tags[k])
  {
    seq(|tags|, k requires 0 <= k < |tags| => TagField(k, tags[k]))
  }

  method TagName(tags: seq<Kind>) returns (text: string)
    requires |tags| == 4
    ensures text == Join(TagFields(tags))
  {
    text := JoinAll(TagFields(tags));
  }

  /** Which slot a field sets, and to what. */
  function TagOf(field: string): Maybe<(nat, Kind)> {
    if |field| < 3 || field[1] != ':' || field[0] < '0' || field[0] > '3' then Nothing
    else
      match KindNamed(field[2..]) {
        case Nothing => Nothing
        case Just(kind) => Just((field[0] as nat - '0' as nat, kind))
      }
  }

  const UNKNOWN_TAGS: seq<Kind> := [Unknown, Unknown, Unknown, Unknown]

  /** The map after the fields, later ones overriding earlier ones. */
  function TagsOf(fields: seq<string>): (r: seq<Kind>)
    ensures |r| == 4
  {
    if fields == [] then UNKNOWN_TAGS
    else
      var before := TagsOf(fields[..|fields| - 1]);
      match TagOf(fields[|fields| - 1]) {
        case Nothing => before
        case Just((index, kind)) => if index < 4 then before[index := kind] else before
      }
  }

  predicate KnownTag(field: string) {
    TagOf(field).Just?
  }

  lemma TagsAppend(fields: seq<string>, field: string)
    requires KnownTag(field)
    ensures TagOf(field).value.0 < 4
    ensures TagsOf(fields + [field]) == TagsOf(fields)[TagOf(field).value.0 := TagOf(field).value.1]
  {
    assert (fields + [field])[..|fields|] == fields;
  }

  /** Succeeds exactly if every field is a slot with a known kind. */
  method DecodeTags(encoded: string) returns (ok: bool, tags: seq<Kind>)
    ensures ok <==> forall k :: 0 <= k < |Fields(encoded)| ==> KnownTag(Fields(encoded)[k])
    ensures ok ==> tags == TagsOf(Fields(encoded))
  {
    tags := UNKNOWN_TAGS;
    var cursor := 0;
    ghost var done: seq<string>, all := [], Fields(encoded);
    assert encoded[0..] == encoded;
    while cursor < |encoded|
      invariant 0 <= cursor <= |encoded| && Split(all, done, encoded[cursor..])
      invariant tags == TagsOf(done) && forall k :: 0 <= k < |done| ==> KnownTag(done[k])
    {
      var value;
      ghost var from := cursor;
      value, cursor := GetLine(encoded, cursor);
      SplitStep(all, done, encoded[from..], value, encoded[cursor..]);
      var tag := TagOf(value);
      if tag.Nothing? {
        assert !KnownTag(all[|done|]);
        return false, tags;
      }
      TagsAppend(done, value);
      done := done + [value];
      tags := tags[tag.value.0 := tag.value.1];
    }
    assert all == done;
    ok := true;
  }

  lemma TagFieldReads(k: nat, kind: Kind)
    requires k < 4
    ensures TagOf(TagField(k, kind)) == Just((k, kind)) && Plain(TagField(k, kind))
  {
    assert TagField(k, kind)[2..] == KindName(kind);
  }

  /** The map after the first `n` slots have been named. */
  ghost predicate Partial(tags: seq<Kind>, n: nat, seen: seq<Kind>)
    requires |tags| == 4
  {
    |seen| == 4 && forall k :: 0 <= k < 4 ==> seen[k] == if k < n then tags[k] else Unknown
  }

  lemma PartialStep(tags: seq<Kind>, n: nat, fields: seq<string>)
    requires |tags| == 4 && n < 4 && Partial(tags, n, TagsOf(fields))
    ensures Partial(tags, n + 1, TagsOf(fields + [TagField(n, tags[n])]))
  {
    TagFieldReads(n, tags[n]);
    TagsAppend(fields, TagField(n, tags[n]));
  }

  lemma {:induction false} TagsOfPrefix(tags: seq<Kind>, fields: seq<string>, n: nat)
    requires |tags| == 4 && n <= 4 && fields == TagFields(tags)
    ensures Partial(tags, n, TagsOf(fields[..n]))
    decreases n
  {
    if n == 0 {
      assert fields[..n] == [];
    } else {
      TagsOfPrefix(tags, fields, n - 1);
      PartialStep(tags, n - 1, fields[..n - 1]);
      assert fields[..n] == fields[..n - 1] + [TagField(n - 1, tags[n - 1])];
    }
  }

  /** A tag map survives its name. */
  lemma TagsRoundTrip(tags: seq<Kind>)
    requires |tags| == 4
    ensures Fields(Join(TagFields(tags))) == TagFields(tags) && TagsOf(TagFields(tags)) == tags
    ensures forall k :: 0 <= k < 4 ==> KnownTag(TagFields(tags)[k])
  {
    var fields := TagFields(tags);
    forall k | 0 <= k < 4
      ensures Plain(fields[k]) && KnownTag(fields[k])
    {
      TagFieldReads(k, tags[k]);
    }
    JoinIsJoinFront(fields);
    FieldsOfJoinFront(fields);
    TagsOfPrefix(tags, fields, |fields|);
    assert fields[..|fields|] == fields;
  }
}
