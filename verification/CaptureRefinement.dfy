/** The emitted cells refine Lua 5.1 upvalues: every run observes the same values. */
module CaptureRefinement {
  import opened CaptureCells

  // ---------- the relation ----------

  function ProtoOf(m: Machine, f: nat): Proto
    requires f < |m.frames| && m.frames[f].closure < |m.closures|
  {
    m.closures[m.frames[f].closure].proto
  }

  /** One register in both machines; only a live frame's value matters. */
  ghost predicate RegAgrees(e: Emitted, p: Proto, live: bool, r: nat, value: Value, local: Local) {
    && (local.Boxed? <==> Managed(p, r))
    && (local.Boxed? ==> local.cell < |e.cells| && (live ==> e.cells[local.cell] == value))
    && (local.Plain? && live ==> local.value == value)
  }

  ghost predicate FrameAgrees(m: Machine, e: Emitted, f: nat)
    requires f < |m.frames| && f < |e.frames|
  {
    var x, y := m.frames[f], e.frames[f];
    && x.closure == y.closure && x.live == y.live && |x.regs| == |y.regs| && x.closure < |m.closures|
    && forall r {:trigger y.regs[r]} :: 0 <= r < |y.regs| ==> RegAgrees(e, ProtoOf(m, f), x.live, r, x.regs[r], y.regs[r])
  }

  ghost predicate FramesAgree(m: Machine, e: Emitted) {
    |m.frames| == |e.frames| && forall f {:trigger FrameAgrees(m, e, f)} :: 0 <= f < |m.frames| ==> FrameAgrees(m, e, f)
  }

  /** Some register holds the cell. */
  predicate Holds(e: Emitted, f: nat, r: nat, cell: nat) {
    f < |e.frames| && r < |e.frames[f].regs| && e.frames[f].regs[r] == Boxed(cell)
  }

  /** No cell is the current cell of two registers. */
  ghost predicate BoxesDistinct(e: Emitted) {
    forall f, r, g, q, cell {:trigger Holds(e, f, r, cell), Holds(e, g, q, cell)} ::
      Holds(e, f, r, cell) && Holds(e, g, q, cell) ==> f == g && r == q
  }

  predicate Alive(e: Emitted, f: nat) {
    f < |e.frames| && e.frames[f].live
  }

  /** A reference that exists and that no frame still running uses as a register. */
  ghost predicate Detached(e: Emitted, ref: Ref) {
    match ref {
      case Var(f, r) => f < |e.frames| && !e.frames[f].live && r < |e.frames[f].regs| && e.frames[f].regs[r].Plain?
      case Cell(id) => id < |e.cells| && forall f, r {:trigger Holds(e, f, r, id)} :: Holds(e, f, r, id) ==> !Alive(e, f)
    }
  }

  /** An open upvalue is its slot's current home; a closed one is a detached home holding its value. */
  ghost predicate LinkAgrees(m: Machine, e: Emitted, upval: UpVal, ref: Ref) {
    match upval {
      case Open(f, r) =>
        && f < |m.frames| && f < |e.frames| && e.frames[f].live && r < |e.frames[f].regs| && m.frames[f].closure < |m.closures|
        && r in ProtoOf(m, f).captured && ref == RefOf(f, e.frames[f].regs, r)
      case Closed(value) => Detached(e, ref) && ReadRef(e, ref) == value
    }
  }

  ghost predicate LinksAgree(m: Machine, e: Emitted, link: seq<Ref>) {
    && |link| == |m.upvals|
    && forall u {:trigger link[u]} :: 0 <= u < |link| ==> LinkAgrees(m, e, m.upvals[u], link[u])
  }

  ghost predicate Injective(link: seq<Ref>) {
    forall u, v :: 0 <= u < v < |link| ==> link[u] != link[v]
  }

  ghost predicate IdsBelow(ids: seq<nat>, bound: nat) {
    forall k :: 0 <= k < |ids| ==> ids[k] < bound
  }

  function Mapped(link: seq<Ref>, ids: seq<nat>): (r: seq<Ref>)
    requires IdsBelow(ids, |link|)
    ensures |r| == |ids| && forall k :: 0 <= k < |ids| ==> r[k] == link[ids[k]]
  {
    seq(|ids|, k requires 0 <= k < |ids| => link[ids[k]])
  }

  ghost predicate ClosureAgrees(x: Closure<nat>, y: Closure<Ref>, link: seq<Ref>) {
    x.proto == y.proto && IdsBelow(x.upvalues, |link|) && y.upvalues == Mapped(link, x.upvalues)
  }

  ghost predicate ClosuresAgree(m: Machine, e: Emitted, link: seq<Ref>) {
    && |m.closures| == |e.closures|
    && forall c {:trigger m.closures[c]} :: 0 <= c < |m.closures| ==> ClosureAgrees(m.closures[c], e.closures[c], link)
  }

  /** `link` says which emitted local or cell stands for each upvalue. */
  ghost predicate Agree(m: Machine, e: Emitted, link: seq<Ref>) {
    FramesAgree(m, e) && BoxesDistinct(e) && LinksAgree(m, e, link) && Injective(link) && ClosuresAgree(m, e, link)
  }

  lemma LegalAgrees(m: Machine, e: Emitted, link: seq<Ref>, op: Op)
    requires Agree(m, e, link)
    ensures Legal(m.frames, m.closures, op) <==> Legal(e.frames, e.closures, op)
  {
    forall f: nat | f < |m.frames|
      ensures FrameAgrees(m, e, f)
      ensures ClosureAgrees(m.closures[m.frames[f].closure], e.closures[m.frames[f].closure], link)
    {
      assert FrameAgrees(m, e, f);
      assert ClosureAgrees(m.closures[m.frames[f].closure], e.closures[m.frames[f].closure], link);
    }
  }

  // ---------- reading ----------

  /** A live register reads the same in both machines. */
  lemma RegReads(m: Machine, e: Emitted, link: seq<Ref>, f: nat, r: nat)
    requires Agree(m, e, link) && f < |m.frames| && m.frames[f].live && r < |m.frames[f].regs|
    ensures f < |e.frames| && r < |e.frames[f].regs|
    ensures ReadRef(e, RefOf(f, e.frames[f].regs, r)) == m.frames[f].regs[r]
  {
    assert FrameAgrees(m, e, f);
    assert RegAgrees(e, ProtoOf(m, f), true, r, m.frames[f].regs[r], e.frames[f].regs[r]);
  }

  /** An upvalue reads the same in both machines. */
  lemma UpReads(m: Machine, e: Emitted, link: seq<Ref>, u: nat)
    requires Agree(m, e, link) && u < |link|
    ensures ReadRef(e, link[u]) == ReadUpVal(m, u)
  {
    assert LinkAgrees(m, e, m.upvals[u], link[u]);
    if m.upvals[u].Open? {
      assert FrameAgrees(m, e, m.upvals[u].frame);
      RegReads(m, e, link, m.upvals[u].frame, m.upvals[u].reg);
    }
  }

  // ---------- writing ----------

  /** Writing a live slot through its home keeps the relation. */
  lemma SlotWriteAgrees(m: Machine, e: Emitted, link: seq<Ref>, f: nat, r: nat, value: Value)
    requires Agree(m, e, link) && f < |m.frames| && m.frames[f].live && r < |m.frames[f].regs|
    ensures f < |e.frames| && r < |e.frames[f].regs|
    ensures Agree(m.(frames := SetReg(m.frames, f, r, value)), WriteRef(e, RefOf(f, e.frames[f].regs, r), value), link)
  {
    assert FrameAgrees(m, e, f);
    assert RegAgrees(e, ProtoOf(m, f), true, r, m.frames[f].regs[r], e.frames[f].regs[r]);
    if e.frames[f].regs[r].Boxed? {
      BoxWriteAgrees(m, e, link, f, r, value);
    } else {
      PlainWriteAgrees(m, e, link, f, r, value);
    }
  }

  lemma BoxWriteAgrees(m: Machine, e: Emitted, link: seq<Ref>, f: nat, r: nat, value: Value)
    requires Agree(m, e, link) && f < |m.frames| && m.frames[f].live && r < |m.frames[f].regs|
    requires f < |e.frames| && r < |e.frames[f].regs| && e.frames[f].regs[r].Boxed? && e.frames[f].regs[r].cell < |e.cells|
    ensures Agree(m.(frames := SetReg(m.frames, f, r, value)), e.(cells := e.cells[e.frames[f].regs[r].cell := value]), link)
  {
    var id := e.frames[f].regs[r].cell;
    var m' := m.(frames := SetReg(m.frames, f, r, value));
    var e' := e.(cells := e.cells[id := value]);
    assert FrameAgrees(m, e, f) && Holds(e, f, r, id) && Alive(e, f);
    forall g | 0 <= g < |m'.frames|
      ensures FrameAgrees(m', e', g)
    {
      assert FrameAgrees(m, e, g);
      forall q | 0 <= q < |e'.frames[g].regs|
        ensures RegAgrees(e', ProtoOf(m', g), m'.frames[g].live, q, m'.frames[g].regs[q], e'.frames[g].regs[q])
      {
        assert RegAgrees(e, ProtoOf(m, g), m.frames[g].live, q, m.frames[g].regs[q], e.frames[g].regs[q]);
        if e.frames[g].regs[q] == Boxed(id) {
          assert Holds(e, g, q, id);
        }
      }
    }
    forall u | 0 <= u < |link|
      ensures LinkAgrees(m', e', m'.upvals[u], link[u])
    {
      assert LinkAgrees(m, e, m.upvals[u], link[u]);
      if m.upvals[u].Closed? {
        StillDetached(e, e', link[u]);
      }
    }
    SameHolds(e, e');
  }

  /** Registers that hold what they held keep cells distinct. */
  lemma SameHolds(e: Emitted, e': Emitted)
    requires BoxesDistinct(e)
    requires forall f: nat, r: nat, cell: nat :: Holds(e', f, r, cell) ==> Holds(e, f, r, cell)
    ensures BoxesDistinct(e')
  {
    forall f: nat, r: nat, g: nat, q: nat, cell: nat | Holds(e', f, r, cell) && Holds(e', g, q, cell)
      ensures f == g && r == q
    {
      assert Holds(e, f, r, cell) && Holds(e, g, q, cell);
    }
  }

  lemma StillDetached(e: Emitted, e': Emitted, ref: Ref)
    requires Detached(e, ref) && |e.frames| <= |e'.frames| && |e.cells| <= |e'.cells|
    requires forall f :: 0 <= f < |e.frames| ==>
      (e'.frames[f].live ==> e.frames[f].live) && |e'.frames[f].regs| == |e.frames[f].regs|
      && forall r :: 0 <= r < |e.frames[f].regs| ==> (e.frames[f].regs[r].Plain? ==> e'.frames[f].regs[r].Plain?)
    requires ref.Cell? ==> forall f: nat, r: nat :: Holds(e', f, r, ref.id) ==> Holds(e, f, r, ref.id)
    ensures Detached(e', ref)
  {
    if ref.Cell? {
      forall f: nat, r: nat | Holds(e', f, r, ref.id)
        ensures !Alive(e', f)
      {
        assert Holds(e, f, r, ref.id);
        assert !Alive(e, f);
      }
    }
  }

  lemma PlainWriteAgrees(m: Machine, e: Emitted, link: seq<Ref>, f: nat, r: nat, value: Value)
    requires Agree(m, e, link) && f < |m.frames| && m.frames[f].live && r < |m.frames[f].regs|
    requires f < |e.frames| && r < |e.frames[f].regs| && e.frames[f].regs[r].Plain?
    ensures Agree(m.(frames := SetReg(m.frames, f, r, value)), e.(frames := SetReg(e.frames, f, r, Plain(value))), link)
  {
    var m' := m.(frames := SetReg(m.frames, f, r, value));
    var e' := e.(frames := SetReg(e.frames, f, r, Plain(value)));
    assert FrameAgrees(m, e, f);
    forall g | 0 <= g < |m'.frames|
      ensures FrameAgrees(m', e', g)
    {
      assert FrameAgrees(m, e, g);
      forall q | 0 <= q < |e'.frames[g].regs|
        ensures RegAgrees(e', ProtoOf(m', g), m'.frames[g].live, q, m'.frames[g].regs[q], e'.frames[g].regs[q])
      {
        assert RegAgrees(e, ProtoOf(m, g), m.frames[g].live, q, m.frames[g].regs[q], e.frames[g].regs[q]);
      }
    }
    forall u | 0 <= u < |link|
      ensures LinkAgrees(m', e', m'.upvals[u], link[u])
    {
      assert LinkAgrees(m, e, m.upvals[u], link[u]);
      if m.upvals[u].Closed? {
        StillDetached(e, e', link[u]);
      }
    }
    SameHolds(e, e');
  }

  /** Writing a closed upvalue through its detached home keeps the relation. */
  lemma ClosedWriteAgrees(m: Machine, e: Emitted, link: seq<Ref>, u: nat, value: Value)
    requires Agree(m, e, link) && u < |link| && m.upvals[u].Closed?
    ensures Agree(m.(upvals := m.upvals[u := Closed(value)]), WriteRef(e, link[u], value), link)
  {
    var m' := m.(upvals := m.upvals[u := Closed(value)]);
    var e' := WriteRef(e, link[u], value);
    assert LinkAgrees(m, e, m.upvals[u], link[u]);
    forall g | 0 <= g < |m'.frames|
      ensures FrameAgrees(m', e', g)
    {
      assert FrameAgrees(m, e, g);
      forall q | 0 <= q < |e'.frames[g].regs|
        ensures RegAgrees(e', ProtoOf(m', g), m'.frames[g].live, q, m'.frames[g].regs[q], e'.frames[g].regs[q])
      {
        assert RegAgrees(e, ProtoOf(m, g), m.frames[g].live, q, m.frames[g].regs[q], e.frames[g].regs[q]);
        if link[u].Cell? && e.frames[g].regs[q] == Boxed(link[u].id) {
          assert Holds(e, g, q, link[u].id);
          assert !Alive(e, g);
        }
      }
    }
    forall v | 0 <= v < |link|
      ensures LinkAgrees(m', e', m'.upvals[v], link[v])
    {
      assert LinkAgrees(m, e, m.upvals[v], link[v]);
      if m.upvals[v].Closed? {
        StillDetached(e, e', link[v]);
        assert v != u ==> link[v] != link[u];
      }
    }
    SameHolds(e, e');
  }

  // ---------- capturing ----------

  /** What the emitted closure gets for one capture. */
  function RefFor(e: Emitted, f: nat, own: seq<Ref>, capture: Capture): Ref
    requires f < |e.frames| && capture.sourceIndex < if capture.fromUpvalue then |own| else |e.frames[f].regs|
  {
    if capture.fromUpvalue then own[capture.sourceIndex] else RefOf(f, e.frames[f].regs, capture.sourceIndex)
  }

  ghost predicate CaptureLegal(m: Machine, e: Emitted, f: nat, capture: Capture) {
    && f < |m.frames| && f < |e.frames| && m.frames[f].live && m.frames[f].closure < |m.closures|
    && m.frames[f].closure < |e.closures|
    && if capture.fromUpvalue then
         && capture.sourceIndex < |m.closures[m.frames[f].closure].upvalues|
         && capture.sourceIndex < |e.closures[m.frames[f].closure].upvalues|
       else capture.sourceIndex < |e.frames[f].regs| && capture.sourceIndex in ProtoOf(m, f).captured
  }

  lemma MappedExtends(link: seq<Ref>, extra: seq<Ref>, ids: seq<nat>)
    requires IdsBelow(ids, |link|)
    ensures Mapped(link + extra, ids) == Mapped(link, ids)
  {
  }

  /** A slot without an open upvalue has a home that stands for no upvalue yet. */
  lemma HomeIsFresh(m: Machine, e: Emitted, link: seq<Ref>, f: nat, r: nat, u: nat)
    requires Agree(m, e, link) && f < |m.frames| && f < |e.frames| && m.frames[f].live && r < |e.frames[f].regs|
    requires u < |link| && m.upvals[u] != Open(f, r)
    ensures link[u] != RefOf(f, e.frames[f].regs, r)
  {
    assert FrameAgrees(m, e, f);
    assert LinkAgrees(m, e, m.upvals[u], link[u]);
    if e.frames[f].regs[r].Boxed? {
      assert Holds(e, f, r, e.frames[f].regs[r].cell);
    }
    if m.upvals[u].Open? && link[u].Cell? {
      assert Holds(e, m.upvals[u].frame, m.upvals[u].reg, link[u].id);
    }
  }

  /** A new open upvalue for a captured slot stands for the slot's home. */
  lemma OpenAgrees(m: Machine, e: Emitted, link: seq<Ref>, f: nat, r: nat)
    requires Agree(m, e, link) && CaptureLegal(m, e, f, Capture(r, false))
    requires forall u :: 0 <= u < |m.upvals| ==> m.upvals[u] != Open(f, r)
    ensures Agree(m.(upvals := m.upvals + [Open(f, r)]), e, link + [RefOf(f, e.frames[f].regs, r)])
  {
    var m' := m.(upvals := m.upvals + [Open(f, r)]);
    var link' := link + [RefOf(f, e.frames[f].regs, r)];
    assert FrameAgrees(m, e, f);
    forall u | 0 <= u < |link'|
      ensures LinkAgrees(m', e, m'.upvals[u], link'[u])
      ensures u < |link| ==> link'[u] != link'[|link|]
    {
      if u < |link| {
        assert LinkAgrees(m, e, m.upvals[u], link[u]);
        HomeIsFresh(m, e, link, f, r, u);
      }
    }
    forall g | 0 <= g < |m'.frames|
      ensures FrameAgrees(m', e, g)
    {
      assert FrameAgrees(m, e, g);
    }
    ClosuresExtend(m, e, link, [RefOf(f, e.frames[f].regs, r)]);
  }

  lemma ClosuresExtend(m: Machine, e: Emitted, link: seq<Ref>, extra: seq<Ref>)
    requires ClosuresAgree(m, e, link)
    ensures ClosuresAgree(m, e, link + extra)
  {
    forall c | 0 <= c < |m.closures|
      ensures ClosureAgrees(m.closures[c], e.closures[c], link + extra)
    {
      assert ClosureAgrees(m.closures[c], e.closures[c], link);
      MappedExtends(link, extra, m.closures[c].upvalues);
    }
  }

  /** Binding one upvalue: the new closure's reference is the home of the upvalue it got. */
  lemma BindAgrees(m: Machine, e: Emitted, link: seq<Ref>, ids: seq<nat>, f: nat, capture: Capture) returns (link': seq<Ref>)
    requires Agree(m, e, link) && IdsBelow(ids, |link|) && CaptureLegal(m, e, f, capture)
    ensures var (upvals, ids') := Bind(m.upvals, ids, f, m.closures[m.frames[f].closure].upvalues, capture);
      && Agree(m.(upvals := upvals), e, link') && IdsBelow(ids', |link'|)
      && Mapped(link', ids') == Mapped(link, ids) + [RefFor(e, f, e.closures[m.frames[f].closure].upvalues, capture)]
  {
    var c := m.frames[f].closure;
    assert ClosureAgrees(m.closures[c], e.closures[c], link);
    link' := link;
    if !capture.fromUpvalue {
      var u := FindOpen(m.upvals, f, capture.sourceIndex);
      if u == |m.upvals| {
        OpenAgrees(m, e, link, f, capture.sourceIndex);
        link' := link + [RefOf(f, e.frames[f].regs, capture.sourceIndex)];
      } else {
        assert LinkAgrees(m, e, m.upvals[u], link[u]);
        assert m.(upvals := m.upvals) == m;
      }
    } else {
      assert m.(upvals := m.upvals) == m;
    }
  }

  ghost predicate CapturesLegal(m: Machine, e: Emitted, f: nat, captures: seq<Capture>) {
    && f < |m.frames| && f < |e.frames| && m.frames[f].closure < |m.closures| && m.frames[f].closure < |e.closures|
    && forall k {:trigger captures[k]} :: 0 <= k < |captures| ==> CaptureLegal(m, e, f, captures[k])
  }

  lemma {:induction false} BindAllAgrees(m: Machine, e: Emitted, link: seq<Ref>, ids: seq<nat>, f: nat, captures: seq<Capture>)
    returns (link': seq<Ref>)
    requires Agree(m, e, link) && IdsBelow(ids, |link|) && CapturesLegal(m, e, f, captures)
    ensures var c := m.frames[f].closure;
      var (upvals, ids') := BindAll(m.upvals, ids, f, m.closures[c].upvalues, captures);
      && Agree(m.(upvals := upvals), e, link') && IdsBelow(ids', |link'|)
      && Mapped(link', ids') == Mapped(link, ids) + RefsOf(f, e.frames[f].regs, e.closures[c].upvalues, captures)
    decreases |captures|
  {
    var c := m.frames[f].closure;
    if captures == [] {
      assert m.(upvals := m.upvals) == m;
      link' := link;
    } else {
      var next := BindAgrees(m, e, link, ids, f, captures[0]);
      var (upvals, ids') := Bind(m.upvals, ids, f, m.closures[c].upvalues, captures[0]);
      var m' := m.(upvals := upvals);
      forall k | 0 <= k < |captures[1..]|
        ensures CaptureLegal(m', e, f, captures[1..][k])
      {
        assert CaptureLegal(m, e, f, captures[k + 1]);
      }
      link' := BindAllAgrees(m', e, next, ids', f, captures[1..]);
      var first := RefFor(e, f, e.closures[c].upvalues, captures[0]);
      var rest := RefsOf(f, e.frames[f].regs, e.closures[c].upvalues, captures[1..]);
      assert Mapped(link, ids) + [first] + rest == Mapped(link, ids) + ([first] + rest);
    }
  }

  /** A new closure gets, in both machines, hold of the same things. */
  lemma MakeAgrees(m: Machine, e: Emitted, link: seq<Ref>, f: nat, proto: Proto, captures: seq<Capture>) returns (link': seq<Ref>)
    requires Agree(m, e, link) && Legal(m.frames, m.closures, Make(f, proto, captures))
    requires Legal(e.frames, e.closures, Make(f, proto, captures))
    ensures Agree(MachineStep(m, Make(f, proto, captures)).0, EmittedStep(e, Make(f, proto, captures)).0, link')
  {
    assert FrameAgrees(m, e, f);
    var c := m.frames[f].closure;
    assert ClosureAgrees(m.closures[c], e.closures[c], link);
    link' := BindAllAgrees(m, e, link, [], f, captures);
    var (upvals, ids) := BindAll(m.upvals, [], f, m.closures[c].upvalues, captures);
    var refs := RefsOf(f, e.frames[f].regs, e.closures[c].upvalues, captures);
    assert refs == Mapped(link', ids);
    ClosureAdded(m.(upvals := upvals), e, link', Closure(proto, ids), Closure(proto, refs));
  }

  lemma ClosureAdded(m: Machine, e: Emitted, link: seq<Ref>, x: Closure<nat>, y: Closure<Ref>)
    requires Agree(m, e, link) && ClosureAgrees(x, y, link)
    ensures Agree(m.(closures := m.closures + [x]), e.(closures := e.closures + [y]), link)
  {
    var m' := m.(closures := m.closures + [x]);
    var e' := e.(closures := e.closures + [y]);
    forall g | 0 <= g < |m'.frames|
      ensures FrameAgrees(m', e', g)
    {
      assert FrameAgrees(m, e, g);
      forall q | 0 <= q < |e'.frames[g].regs|
        ensures RegAgrees(e', ProtoOf(m', g), m'.frames[g].live, q, m'.frames[g].regs[q], e'.frames[g].regs[q])
      {
        assert RegAgrees(e, ProtoOf(m, g), m.frames[g].live, q, m.frames[g].regs[q], e.frames[g].regs[q]);
      }
    }
    forall u | 0 <= u < |link|
      ensures LinkAgrees(m', e', m'.upvals[u], link[u])
    {
      assert LinkAgrees(m, e, m.upvals[u], link[u]);
      if m.upvals[u].Closed? {
        StillDetached(e, e', link[u]);
      }
    }
    forall c | 0 <= c < |m'.closures|
      ensures ClosureAgrees(m'.closures[c], e'.closures[c], link)
    {
      assert c < |m.closures| ==> ClosureAgrees(m.closures[c], e.closures[c], link);
    }
    SameHolds(e, e');
  }

  // ---------- closing ----------

  /** What CLOSE leaves in the registers from `a` on: a fresh cell of its own for each, with the value carried over. */
  ghost predicate Rebound(regs: seq<Local>, cells: seq<Value>, a: nat, regs': seq<Local>, cells': seq<Value>) {
    && |regs'| == |regs| && |cells| <= |cells'| && cells'[..|cells|] == cells
    && (forall r {:trigger regs'[r]} :: 0 <= r < |regs| ==>
          if r >= a && regs[r].Boxed? && regs[r].cell < |cells|
          then regs'[r].Boxed? && |cells| <= regs'[r].cell < |cells'| && cells'[regs'[r].cell] == cells[regs[r].cell]
          else regs'[r] == regs[r])
    && forall r, q {:trigger regs'[r], regs'[q]} :: a <= r < q < |regs| && regs'[r].Boxed? && regs'[r].cell >= |cells| ==> regs'[r] != regs'[q]
  }

  lemma {:induction false} RebindRebinds(regs: seq<Local>, cells: seq<Value>, a: nat)
    requires a <= |regs| && forall r :: 0 <= r < |regs| && regs[r].Boxed? ==> regs[r].cell < |cells|
    ensures Rebound(regs, cells, a, Rebind(regs, cells, a).0, Rebind(regs, cells, a).1)
    decreases |regs| - a
  {
    if a < |regs| {
      if regs[a].Boxed? {
        var mid, grown := regs[a := Boxed(|cells|)], cells + [cells[regs[a].cell]];
        RebindRebinds(mid, grown, a + 1);
        var (regs', cells') := Rebind(mid, grown, a + 1);
        assert regs'[a] == mid[a];
        assert cells'[..|cells|] == grown[..|cells|] == cells;
        assert cells'[|cells|] == grown[|cells|];
        forall r | 0 <= r < |regs|
          ensures if r >= a && regs[r].Boxed? && regs[r].cell < |cells|
            then regs'[r].Boxed? && |cells| <= regs'[r].cell < |cells'| && cells'[regs'[r].cell] == cells[regs[r].cell]
            else regs'[r] == regs[r]
        {
          if r != a {
            assert mid[r] == regs[r];
          }
        }
      } else {
        RebindRebinds(regs, cells, a + 1);
      }
    }
  }

  /** CLOSE from `a`: the upvalues detached are those whose registers get a new cell. */
  lemma CloseAgrees(m: Machine, e: Emitted, link: seq<Ref>, f: nat, a: nat, regs: seq<Local>, cells: seq<Value>)
    requires Agree(m, e, link) && f < |m.frames| && f < |e.frames| && m.frames[f].live && m.frames[f].closure < |m.closures|
    requires a in ProtoOf(m, f).closes && Rebound(e.frames[f].regs, e.cells, a, regs, cells)
    ensures Agree(m.(upvals := CloseUpVals(m.upvals, f, m.frames[f].regs, a)),
                  e.(frames := e.frames[f := e.frames[f].(regs := regs)], cells := cells), link)
  {
    var m' := m.(upvals := CloseUpVals(m.upvals, f, m.frames[f].regs, a));
    var e' := e.(frames := e.frames[f := e.frames[f].(regs := regs)], cells := cells);
    assert forall id :: 0 <= id < |e.cells| ==> cells[id] == cells[..|e.cells|][id];
    OldCellsHeldBefore(m, e, link, f, a, regs, cells);
    forall g | 0 <= g < |m'.frames|
      ensures FrameAgrees(m', e', g)
    {
      CloseFrame(m, e, link, f, a, regs, cells, g);
    }
    forall u | 0 <= u < |link|
      ensures LinkAgrees(m', e', m'.upvals[u], link[u])
    {
      CloseLink(m, e, link, f, a, regs, cells, u);
    }
    CloseDistinct(m, e, link, f, a, regs, cells);
    ClosuresExtend(m, e, link, []);
    assert link + [] == link;
  }

  /** After CLOSE, an old cell is held only where it was held, and not from `a` on. */
  lemma OldCellsHeldBefore(m: Machine, e: Emitted, link: seq<Ref>, f: nat, a: nat, regs: seq<Local>, cells: seq<Value>)
    requires Agree(m, e, link) && f < |m.frames| && f < |e.frames| && m.frames[f].live && m.frames[f].closure < |m.closures|
    requires Rebound(e.frames[f].regs, e.cells, a, regs, cells)
    ensures var e' := e.(frames := e.frames[f := e.frames[f].(regs := regs)], cells := cells);
      forall g: nat, r: nat, id: nat :: Holds(e', g, r, id) && id < |e.cells| ==> Holds(e, g, r, id) && (g == f ==> r < a)
  {
    var e' := e.(frames := e.frames[f := e.frames[f].(regs := regs)], cells := cells);
    forall g: nat, r: nat, id: nat | Holds(e', g, r, id) && id < |e.cells|
      ensures Holds(e, g, r, id) && (g == f ==> r < a)
    {
      assert FrameAgrees(m, e, g);
      assert RegAgrees(e, ProtoOf(m, g), m.frames[g].live, r, m.frames[g].regs[r], e.frames[g].regs[r]);
    }
  }

  lemma CloseFrame(m: Machine, e: Emitted, link: seq<Ref>, f: nat, a: nat, regs: seq<Local>, cells: seq<Value>, g: nat)
    requires Agree(m, e, link) && f < |m.frames| && f < |e.frames| && m.frames[f].live && m.frames[f].closure < |m.closures|
    requires Rebound(e.frames[f].regs, e.cells, a, regs, cells) && g < |m.frames|
    ensures g < |e.frames|
    ensures FrameAgrees(m.(upvals := CloseUpVals(m.upvals, f, m.frames[f].regs, a)),
                        e.(frames := e.frames[f := e.frames[f].(regs := regs)], cells := cells), g)
  {
    var m' := m.(upvals := CloseUpVals(m.upvals, f, m.frames[f].regs, a));
    var e' := e.(frames := e.frames[f := e.frames[f].(regs := regs)], cells := cells);
    assert FrameAgrees(m, e, g);
    assert forall id :: 0 <= id < |e.cells| ==> cells[id] == cells[..|e.cells|][id];
    forall q | 0 <= q < |e'.frames[g].regs|
      ensures RegAgrees(e', ProtoOf(m', g), m'.frames[g].live, q, m'.frames[g].regs[q], e'.frames[g].regs[q])
    {
      assert RegAgrees(e, ProtoOf(m, g), m.frames[g].live, q, m.frames[g].regs[q], e.frames[g].regs[q]);
    }
  }

  lemma CloseLink(m: Machine, e: Emitted, link: seq<Ref>, f: nat, a: nat, regs: seq<Local>, cells: seq<Value>, u: nat)
    requires Agree(m, e, link) && f < |m.frames| && f < |e.frames| && m.frames[f].live && m.frames[f].closure < |m.closures|
    requires a in ProtoOf(m, f).closes && Rebound(e.frames[f].regs, e.cells, a, regs, cells) && u < |link|
    ensures u < |m.upvals|
    ensures LinkAgrees(m.(upvals := CloseUpVals(m.upvals, f, m.frames[f].regs, a)),
                       e.(frames := e.frames[f := e.frames[f].(regs := regs)], cells := cells),
                       CloseOne(m.upvals[u], f, m.frames[f].regs, a), link[u])
  {
    var e' := e.(frames := e.frames[f := e.frames[f].(regs := regs)], cells := cells);
    assert LinkAgrees(m, e, m.upvals[u], link[u]);
    OldCellsHeldBefore(m, e, link, f, a, regs, cells);
    assert forall id :: 0 <= id < |e.cells| ==> cells[id] == cells[..|e.cells|][id];
    match m.upvals[u] {
      case Closed(value) =>
        assert FrameAgrees(m, e, f);
        StillDetached(e, e', link[u]);
      case Open(g, r) =>
        assert FrameAgrees(m, e, g);
        assert RegAgrees(e, ProtoOf(m, g), true, r, m.frames[g].regs[r], e.frames[g].regs[r]);
        if g == f && r >= a {
          assert Managed(ProtoOf(m, f), r);
          assert Holds(e, f, r, link[u].id);
          assert forall h: nat, q: nat :: !Holds(e', h, q, link[u].id);
        }
    }
  }

  lemma CloseDistinct(m: Machine, e: Emitted, link: seq<Ref>, f: nat, a: nat, regs: seq<Local>, cells: seq<Value>)
    requires Agree(m, e, link) && f < |m.frames| && f < |e.frames| && m.frames[f].live && m.frames[f].closure < |m.closures|
    requires Rebound(e.frames[f].regs, e.cells, a, regs, cells)
    ensures BoxesDistinct(e.(frames := e.frames[f := e.frames[f].(regs := regs)], cells := cells))
  {
    var e' := e.(frames := e.frames[f := e.frames[f].(regs := regs)], cells := cells);
    OldCellsHeldBefore(m, e, link, f, a, regs, cells);
    forall g: nat, r: nat, h: nat, q: nat, id: nat | Holds(e', g, r, id) && Holds(e', h, q, id)
      ensures g == h && r == q
    {
      if id < |e.cells| {
        assert Holds(e, g, r, id) && Holds(e, h, q, id);
      } else {
        NewCellHeldByFrame(m, e, link, f, a, regs, cells, g, r, id);
        NewCellHeldByFrame(m, e, link, f, a, regs, cells, h, q, id);
      }
    }
  }

  lemma NewCellHeldByFrame(m: Machine, e: Emitted, link: seq<Ref>, f: nat, a: nat, regs: seq<Local>, cells: seq<Value>, g: nat, r: nat, id: nat)
    requires Agree(m, e, link) && f < |m.frames| && f < |e.frames| && m.frames[f].live && m.frames[f].closure < |m.closures|
    requires Rebound(e.frames[f].regs, e.cells, a, regs, cells) && id >= |e.cells|
    requires Holds(e.(frames := e.frames[f := e.frames[f].(regs := regs)], cells := cells), g, r, id)
    ensures g == f && a <= r < |regs| && regs[r] == Boxed(id)
  {
    assert FrameAgrees(m, e, g);
    assert RegAgrees(e, ProtoOf(m, g), m.frames[g].live, r, m.frames[g].regs[r], e.frames[g].regs[r]);
  }

  /** A return closes every open upvalue of the frame, whose locals and cells stay with the closures. */
  lemma ReturnAgrees(m: Machine, e: Emitted, link: seq<Ref>, f: nat)
    requires Agree(m, e, link) && f < |m.frames| && f < |e.frames| && m.frames[f].live
    ensures Agree(m.(upvals := CloseUpVals(m.upvals, f, m.frames[f].regs, 0), frames := m.frames[f := m.frames[f].(live := false)]),
                  e.(frames := e.frames[f := e.frames[f].(live := false)]), link)
  {
    var m' := m.(upvals := CloseUpVals(m.upvals, f, m.frames[f].regs, 0), frames := m.frames[f := m.frames[f].(live := false)]);
    var e' := e.(frames := e.frames[f := e.frames[f].(live := false)]);
    forall g | 0 <= g < |m'.frames|
      ensures FrameAgrees(m', e', g)
    {
      assert FrameAgrees(m, e, g);
      forall q | 0 <= q < |e'.frames[g].regs|
        ensures RegAgrees(e', ProtoOf(m', g), m'.frames[g].live, q, m'.frames[g].regs[q], e'.frames[g].regs[q])
      {
        assert RegAgrees(e, ProtoOf(m, g), m.frames[g].live, q, m.frames[g].regs[q], e.frames[g].regs[q]);
      }
    }
    forall u | 0 <= u < |link|
      ensures LinkAgrees(m', e', m'.upvals[u], link[u])
    {
      ReturnLink(m, e, link, f, u);
    }
    SameHolds(e, e');
    ClosuresExtend(m, e, link, []);
    assert link + [] == link;
  }

  lemma ReturnLink(m: Machine, e: Emitted, link: seq<Ref>, f: nat, u: nat)
    requires Agree(m, e, link) && f < |m.frames| && f < |e.frames| && m.frames[f].live && u < |link|
    ensures u < |m.upvals|
    ensures LinkAgrees(m.(upvals := CloseUpVals(m.upvals, f, m.frames[f].regs, 0), frames := m.frames[f := m.frames[f].(live := false)]),
                       e.(frames := e.frames[f := e.frames[f].(live := false)]),
                       CloseOne(m.upvals[u], f, m.frames[f].regs, 0), link[u])
  {
    var e' := e.(frames := e.frames[f := e.frames[f].(live := false)]);
    assert LinkAgrees(m, e, m.upvals[u], link[u]);
    if m.upvals[u].Closed? {
      StillDetached(e, e', link[u]);
    } else {
      var g, r := m.upvals[u].frame, m.upvals[u].reg;
      assert FrameAgrees(m, e, g);
      assert RegAgrees(e, ProtoOf(m, g), true, r, m.frames[g].regs[r], e.frames[g].regs[r]);
      if g == f && link[u].Cell? {
        assert Holds(e, f, r, link[u].id);
        forall h: nat, q: nat | Holds(e', h, q, link[u].id)
          ensures !Alive(e', h)
        {
          assert Holds(e, h, q, link[u].id);
        }
      }
    }
  }

  // ---------- calling ----------

  /** The declarations give every managed register a new cell of its own and every other one a local. */
  ghost predicate Declared(p: Proto, args: seq<Value>, before: nat, n: nat, regs: seq<Local>, cells: seq<Value>) {
    && |regs| == n && before <= |cells|
    && (forall r {:trigger regs[r]} :: 0 <= r < n ==>
          if Managed(p, r) then regs[r].Boxed? && before <= regs[r].cell < |cells| && cells[regs[r].cell] == Initial(p, args, r)
          else regs[r] == Plain(Initial(p, args, r)))
    && forall r, q {:trigger regs[r], regs[q]} :: 0 <= r < q < n && regs[r].Boxed? ==> regs[r] != regs[q]
  }

  lemma {:induction false} DeclareDeclares(p: Proto, args: seq<Value>, r: nat, regs: seq<Local>, before: seq<Value>, cells: seq<Value>)
    requires r <= p.maxstack && Declared(p, args, |before|, r, regs, cells) && before <= cells
    ensures Declared(p, args, |before|, p.maxstack, Declare(p, args, r, regs, cells).0, Declare(p, args, r, regs, cells).1)
    ensures before <= Declare(p, args, r, regs, cells).1
    decreases p.maxstack - r
  {
    if r < p.maxstack {
      if Managed(p, r) {
        DeclareDeclares(p, args, r + 1, regs + [Boxed(|cells|)], before, cells + [Initial(p, args, r)]);
      } else {
        DeclareDeclares(p, args, r + 1, regs + [Plain(Initial(p, args, r))], before, cells);
      }
    }
  }

  lemma CallAgrees(m: Machine, e: Emitted, link: seq<Ref>, c: nat, args: seq<Value>, values: seq<Value>, regs: seq<Local>, cells: seq<Value>)
    requires Agree(m, e, link) && c < |m.closures| && e.cells <= cells
    requires Declared(m.closures[c].proto, args, |e.cells|, m.closures[c].proto.maxstack, regs, cells)
    requires |values| == |regs| && forall r :: 0 <= r < |values| ==> values[r] == Initial(m.closures[c].proto, args, r)
    ensures Agree(m.(frames := m.frames + [Frame(c, true, values)]), e.(frames := e.frames + [Frame(c, true, regs)], cells := cells), link)
  {
    var m' := m.(frames := m.frames + [Frame(c, true, values)]);
    var e' := e.(frames := e.frames + [Frame(c, true, regs)], cells := cells);
    forall g | 0 <= g < |m'.frames|
      ensures FrameAgrees(m', e', g)
    {
      assert g < |m.frames| ==> FrameAgrees(m, e, g);
      forall q | 0 <= q < |e'.frames[g].regs|
        ensures RegAgrees(e', ProtoOf(m', g), m'.frames[g].live, q, m'.frames[g].regs[q], e'.frames[g].regs[q])
      {
        if g < |m.frames| {
          assert RegAgrees(e, ProtoOf(m, g), m.frames[g].live, q, m.frames[g].regs[q], e.frames[g].regs[q]);
        } else {
          assert regs[q] == e'.frames[g].regs[q];
        }
      }
    }
    forall g: nat, r: nat, id: nat | Holds(e', g, r, id)
      ensures if g < |e.frames| then id < |e.cells| && Holds(e, g, r, id) else g == |e.frames| && id >= |e.cells| && regs[r] == Boxed(id)
    {
      if g < |e.frames| {
        assert FrameAgrees(m, e, g);
        assert RegAgrees(e, ProtoOf(m, g), m.frames[g].live, r, m.frames[g].regs[r], e.frames[g].regs[r]);
      }
    }
    forall u | 0 <= u < |link|
      ensures LinkAgrees(m', e', m'.upvals[u], link[u])
    {
      assert LinkAgrees(m, e, m.upvals[u], link[u]);
      if m.upvals[u].Closed? {
        StillDetached(e, e', link[u]);
      }
    }
    ClosuresExtend(m, e, link, []);
    assert link + [] == link;
  }

  // ---------- every run ----------

  /** One operation keeps the relation and shows the same value. */
  lemma StepAgrees(m: Machine, e: Emitted, link: seq<Ref>, op: Op) returns (link': seq<Ref>)
    requires Agree(m, e, link)
    ensures Agree(MachineStep(m, op).0, EmittedStep(e, op).0, link') && MachineStep(m, op).1 == EmittedStep(e, op).1
  {
    LegalAgrees(m, e, link, op);
    link' := link;
    if Legal(m.frames, m.closures, op) {
      match op {
        case Call(c, args) =>
          var p := m.closures[c].proto;
          assert ClosureAgrees(m.closures[c], e.closures[c], link);
          DeclareDeclares(p, args, 0, [], e.cells, e.cells);
          var (regs, cells) := Declare(p, args, 0, [], e.cells);
          CallAgrees(m, e, link, c, args, seq(p.maxstack, r requires 0 <= r => Initial(p, args, r)), regs, cells);
        case Read(f, r) => RegReads(m, e, link, f, r);
        case Write(f, r, value) => SlotWriteAgrees(m, e, link, f, r, value);
        case Make(f, proto, captures) => link' := MakeAgrees(m, e, link, f, proto, captures);
        case GetUp(f, i) =>
          assert FrameAgrees(m, e, f);
          assert ClosureAgrees(m.closures[m.frames[f].closure], e.closures[m.frames[f].closure], link);
          UpReads(m, e, link, m.closures[m.frames[f].closure].upvalues[i]);
        case SetUp(f, i, value) => SetUpAgrees(m, e, link, f, i, value);
        case Close(f, a) => CloseStepAgrees(m, e, link, f, a);
        case Return(f) => ReturnAgrees(m, e, link, f);
      }
    }
  }

  lemma SetUpAgrees(m: Machine, e: Emitted, link: seq<Ref>, f: nat, i: nat, value: Value)
    requires Agree(m, e, link) && Legal(m.frames, m.closures, SetUp(f, i, value)) && Legal(e.frames, e.closures, SetUp(f, i, value))
    ensures Agree(MachineStep(m, SetUp(f, i, value)).0, EmittedStep(e, SetUp(f, i, value)).0, link)
  {
    assert FrameAgrees(m, e, f);
    assert ClosureAgrees(m.closures[m.frames[f].closure], e.closures[m.frames[f].closure], link);
    var u := m.closures[m.frames[f].closure].upvalues[i];
    assert LinkAgrees(m, e, m.upvals[u], link[u]);
    if m.upvals[u].Closed? {
      ClosedWriteAgrees(m, e, link, u, value);
    } else {
      assert FrameAgrees(m, e, m.upvals[u].frame);
      SlotWriteAgrees(m, e, link, m.upvals[u].frame, m.upvals[u].reg, value);
    }
  }

  lemma CloseStepAgrees(m: Machine, e: Emitted, link: seq<Ref>, f: nat, a: nat)
    requires Agree(m, e, link) && Legal(m.frames, m.closures, Close(f, a)) && Legal(e.frames, e.closures, Close(f, a))
    ensures Agree(MachineStep(m, Close(f, a)).0, EmittedStep(e, Close(f, a)).0, link)
  {
    assert FrameAgrees(m, e, f);
    var regs := e.frames[f].regs;
    if a > |regs| {
      assert CloseUpVals(m.upvals, f, m.frames[f].regs, a) == m.upvals;
      assert m.(upvals := m.upvals) == m;
    } else {
      forall r | 0 <= r < |regs| && regs[r].Boxed?
        ensures regs[r].cell < |e.cells|
      {
        assert RegAgrees(e, ProtoOf(m, f), true, r, m.frames[f].regs[r], regs[r]);
      }
      RebindRebinds(regs, e.cells, a);
      CloseAgrees(m, e, link, f, a, Rebind(regs, e.cells, a).0, Rebind(regs, e.cells, a).1);
    }
  }

  /** From related states, any sequence of operations shows the same values. */
  lemma {:induction false} RunsAgree(m: Machine, e: Emitted, link: seq<Ref>, ops: seq<Op>)
    requires Agree(m, e, link)
    ensures MachineRun(m, ops) == EmittedRun(e, ops)
    decreases |ops|
  {
    if ops != [] {
      var next := StepAgrees(m, e, link, ops[0]);
      RunsAgree(MachineStep(m, ops[0]).0, EmittedStep(e, ops[0]).0, next, ops[1..]);
    }
  }

  /** Every program, from its first call on, sees the values it would see under Lua 5.1. */
  lemma CellsRefineUpvalues(main: Proto, ops: seq<Op>)
    ensures MachineRun(MachineStart(main), ops) == EmittedRun(EmittedStart(main), ops)
  {
    RunsAgree(MachineStart(main), EmittedStart(main), [], ops);
  }
}
