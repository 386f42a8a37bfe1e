/** Captured registers: Lua 5.1 upvalues, and the one-slot cells of the emitted program that stand for them. */
module CaptureCells {

  datatype Value = Nil | Data(id: int) | Function(closure: nat)

  /** What a prototype says about captures: which registers its closures bind, and from where its CLOSEs close. */
  datatype Proto = Proto(maxstack: nat, params: nat, captured: set<nat>, closes: set<nat>)

  /** Registers kept in a cell: captured ones that some CLOSE covers. */
  predicate Managed(p: Proto, r: nat) {
    r in p.captured && exists a :: a in p.closes && a <= r
  }

  datatype Capture = Capture(sourceIndex: nat, fromUpvalue: bool)

  /** Everything that touches a register or an upvalue; any frame that has not returned may act. */
  datatype Op =
    | Call(closure: nat, args: seq<Value>)
    | Read(frame: nat, reg: nat)
    | Write(frame: nat, reg: nat, value: Value)
    | Make(frame: nat, proto: Proto, captures: seq<Capture>)
    | GetUp(frame: nat, index: nat)
    | SetUp(frame: nat, index: nat, value: Value)
    | Close(frame: nat, from: nat)
    | Return(frame: nat)

  datatype Frame<R> = Frame(closure: nat, live: bool, regs: seq<R>)
  datatype Closure<U> = Closure(proto: Proto, upvalues: seq<U>)

  predicate Live<R, U>(frames: seq<Frame<R>>, closures: seq<Closure<U>>, f: nat) {
    f < |frames| && frames[f].live && frames[f].closure < |closures|
  }

  /** What validation guarantees: operands in range, captures and CLOSEs those recorded for the prototype. */
  predicate Legal<R, U>(frames: seq<Frame<R>>, closures: seq<Closure<U>>, op: Op) {
    match op {
      case Call(c, _) => c < |closures|
      case Read(f, r) => Live(frames, closures, f) && r < |frames[f].regs|
      case Write(f, r, _) => Live(frames, closures, f) && r < |frames[f].regs|
      case Make(f, _, captures) =>
        && Live(frames, closures, f)
        && forall k :: 0 <= k < |captures| ==>
             if captures[k].fromUpvalue then captures[k].sourceIndex < |closures[frames[f].closure].upvalues|
             else captures[k].sourceIndex < |frames[f].regs| && captures[k].sourceIndex in closures[frames[f].closure].proto.captured
      case GetUp(f, i) => Live(frames, closures, f) && i < |closures[frames[f].closure].upvalues|
      case SetUp(f, i, _) => Live(frames, closures, f) && i < |closures[frames[f].closure].upvalues|
      case Close(f, a) => Live(frames, closures, f) && a in closures[frames[f].closure].proto.closes
      case Return(f) => Live(frames, closures, f)
    }
  }

  /** Registers on entry: the arguments, then nil. */
  function Initial(p: Proto, args: seq<Value>, r: nat): Value {
    if r < p.params && r < |args| then args[r] else Nil
  }

  // ---------- Lua 5.1 ----------

  /** An upvalue points at a stack slot until it is closed. */
  datatype UpVal = Open(frame: nat, reg: nat) | Closed(value: Value)

  datatype Machine = Machine(frames: seq<Frame<Value>>, closures: seq<Closure<nat>>, upvals: seq<UpVal>)

  /** The open upvalue for a slot, or the next free index. */
  function FindOpen(upvals: seq<UpVal>, f: nat, r: nat): (u: nat)
    ensures u <= |upvals|
    ensures u < |upvals| ==> upvals[u] == Open(f, r)
    ensures u == |upvals| ==> forall v :: 0 <= v < |upvals| ==> upvals[v] != Open(f, r)
  {
    if upvals == [] then 0
    else if upvals[0] == Open(f, r) then 0
    else 1 + FindOpen(upvals[1..], f, r)
  }

  /** Binds one more upvalue: inherited, shared with an open one, or new. */
  function Bind(upvals: seq<UpVal>, ids: seq<nat>, f: nat, own: seq<nat>, capture: Capture): (seq<UpVal>, seq<nat>)
    requires capture.fromUpvalue ==> capture.sourceIndex < |own|
  {
    if capture.fromUpvalue then (upvals, ids + [own[capture.sourceIndex]])
    else
      var u := FindOpen(upvals, f, capture.sourceIndex);
      (if u < |upvals| then upvals else upvals + [Open(f, capture.sourceIndex)], ids + [u])
  }

  function BindAll(upvals: seq<UpVal>, ids: seq<nat>, f: nat, own: seq<nat>, captures: seq<Capture>): (seq<UpVal>, seq<nat>)
    requires forall k :: 0 <= k < |captures| && captures[k].fromUpvalue ==> captures[k].sourceIndex < |own|
    decreases |captures|
  {
    if captures == [] then (upvals, ids)
    else
      var (upvals', ids') := Bind(upvals, ids, f, own, captures[0]);
      BindAll(upvals', ids', f, own, captures[1..])
  }

  function ReadUpVal(m: Machine, u: nat): Value {
    if u >= |m.upvals| then Nil
    else
      match m.upvals[u] {
        case Closed(value) => value
        case Open(f, r) => if f < |m.frames| && r < |m.frames[f].regs| then m.frames[f].regs[r] else Nil
      }
  }

  function WriteUpVal(m: Machine, u: nat, value: Value): Machine {
    if u >= |m.upvals| then m
    else
      match m.upvals[u] {
        case Closed(_) => m.(upvals := m.upvals[u := Closed(value)])
        case Open(f, r) =>
          if f < |m.frames| && r < |m.frames[f].regs| then m.(frames := SetReg(m.frames, f, r, value)) else m
      }
  }

  function SetReg<R>(frames: seq<Frame<R>>, f: nat, r: nat, value: R): seq<Frame<R>>
    requires f < |frames| && r < |frames[f].regs|
  {
    frames[f := frames[f].(regs := frames[f].regs[r := value])]
  }

  /** Closes the open upvalues of a frame's slots from `a` up: each keeps the value of its slot. */
  function CloseUpVals(upvals: seq<UpVal>, f: nat, regs: seq<Value>, a: nat): (r: seq<UpVal>)
    ensures |r| == |upvals|
    ensures forall u :: 0 <= u < |upvals| ==> r[u] == CloseOne(upvals[u], f, regs, a)
  {
    seq(|upvals|, u requires 0 <= u < |upvals| => CloseOne(upvals[u], f, regs, a))
  }

  function CloseOne(upval: UpVal, f: nat, regs: seq<Value>, a: nat): UpVal {
    if upval.Open? && upval.frame == f && a <= upval.reg < |regs| then Closed(regs[upval.reg]) else upval
  }

  function MachineStep(m: Machine, op: Op): (Machine, Value) {
    if !Legal(m.frames, m.closures, op) then (m, Nil)
    else
      match op {
        case Call(c, args) =>
          var p := m.closures[c].proto;
          (m.(frames := m.frames + [Frame(c, true, seq(p.maxstack, r requires 0 <= r => Initial(p, args, r)))]), Nil)
        case Read(f, r) => (m, m.frames[f].regs[r])
        case Write(f, r, value) => (m.(frames := SetReg(m.frames, f, r, value)), Nil)
        case Make(f, proto, captures) =>
          var (upvals, ids) := BindAll(m.upvals, [], f, m.closures[m.frames[f].closure].upvalues, captures);
          (m.(upvals := upvals, closures := m.closures + [Closure(proto, ids)]), Function(|m.closures|))
        case GetUp(f, i) => (m, ReadUpVal(m, m.closures[m.frames[f].closure].upvalues[i]))
        case SetUp(f, i, value) => (WriteUpVal(m, m.closures[m.frames[f].closure].upvalues[i], value), Nil)
        case Close(f, a) => (m.(upvals := CloseUpVals(m.upvals, f, m.frames[f].regs, a)), Nil)
        case Return(f) =>
          (m.(upvals := CloseUpVals(m.upvals, f, m.frames[f].regs, 0), frames := m.frames[f := m.frames[f].(live := false)]), Nil)
      }
  }

  // ---------- the emitted program ----------

  /** A register of the emitted function: a lexical local, or a local holding a one-slot cell. */
  datatype Local = Plain(value: Value) | Boxed(cell: nat)

  /** What a closure of the emitted program has hold of: the enclosing local itself, or the cell it was passed. */
  datatype Ref = Var(frame: nat, reg: nat) | Cell(id: nat)

  datatype Emitted = Emitted(frames: seq<Frame<Local>>, closures: seq<Closure<Ref>>, cells: seq<Value>)

  /** The declarations at the head of a function body, for the registers from `r` on. */
  function Declare(p: Proto, args: seq<Value>, r: nat, regs: seq<Local>, cells: seq<Value>): (seq<Local>, seq<Value>)
    requires r <= p.maxstack
    decreases p.maxstack - r
  {
    if r == p.maxstack then (regs, cells)
    else if Managed(p, r) then Declare(p, args, r + 1, regs + [Boxed(|cells|)], cells + [Initial(p, args, r)])
    else Declare(p, args, r + 1, regs + [Plain(Initial(p, args, r))], cells)
  }

  /** The emitted CLOSE, for the registers from `r` on: every cell local gets a new cell with the old cell's value. */
  function Rebind(regs: seq<Local>, cells: seq<Value>, r: nat): (seq<Local>, seq<Value>)
    requires r <= |regs|
    decreases |regs| - r
  {
    if r == |regs| then (regs, cells)
    else if regs[r].Boxed? && regs[r].cell < |cells| then
      Rebind(regs[r := Boxed(|cells|)], cells + [cells[regs[r].cell]], r + 1)
    else Rebind(regs, cells, r + 1)
  }

  function RefOf(f: nat, regs: seq<Local>, r: nat): Ref
    requires r < |regs|
  {
    if regs[r].Boxed? then Cell(regs[r].cell) else Var(f, r)
  }

  function RefsOf(f: nat, regs: seq<Local>, own: seq<Ref>, captures: seq<Capture>): (r: seq<Ref>)
    requires forall k :: 0 <= k < |captures| ==> captures[k].sourceIndex < if captures[k].fromUpvalue then |own| else |regs|
  {
    if captures == [] then []
    else
      [if captures[0].fromUpvalue then own[captures[0].sourceIndex] else RefOf(f, regs, captures[0].sourceIndex)]
      + RefsOf(f, regs, own, captures[1..])
  }

  function ReadRef(e: Emitted, ref: Ref): Value {
    match ref {
      case Cell(id) => if id < |e.cells| then e.cells[id] else Nil
      case Var(f, r) =>
        if f < |e.frames| && r < |e.frames[f].regs| && e.frames[f].regs[r].Plain? then e.frames[f].regs[r].value else Nil
    }
  }

  function WriteRef(e: Emitted, ref: Ref, value: Value): Emitted {
    match ref {
      case Cell(id) => if id < |e.cells| then e.(cells := e.cells[id := value]) else e
      case Var(f, r) =>
        if f < |e.frames| && r < |e.frames[f].regs| && e.frames[f].regs[r].Plain?
        then e.(frames := SetReg(e.frames, f, r, Plain(value))) else e
    }
  }

  function EmittedStep(e: Emitted, op: Op): (Emitted, Value) {
    if !Legal(e.frames, e.closures, op) then (e, Nil)
    else
      match op {
        case Call(c, args) =>
          var (regs, cells) := Declare(e.closures[c].proto, args, 0, [], e.cells);
          (e.(frames := e.frames + [Frame(c, true, regs)], cells := cells), Nil)
        case Read(f, r) => (e, ReadRef(e, RefOf(f, e.frames[f].regs, r)))
        case Write(f, r, value) => (WriteRef(e, RefOf(f, e.frames[f].regs, r), value), Nil)
        case Make(f, proto, captures) =>
          var refs := RefsOf(f, e.frames[f].regs, e.closures[e.frames[f].closure].upvalues, captures);
          (e.(closures := e.closures + [Closure(proto, refs)]), Function(|e.closures|))
        case GetUp(f, i) => (e, ReadRef(e, e.closures[e.frames[f].closure].upvalues[i]))
        case SetUp(f, i, value) => (WriteRef(e, e.closures[e.frames[f].closure].upvalues[i], value), Nil)
        case Close(f, a) =>
          if a > |e.frames[f].regs| then (e, Nil)
          else
            var (regs, cells) := Rebind(e.frames[f].regs, e.cells, a);
            (e.(frames := e.frames[f := e.frames[f].(regs := regs)], cells := cells), Nil)
        case Return(f) => (e.(frames := e.frames[f := e.frames[f].(live := false)]), Nil)
      }
  }

  // ---------- runs ----------

  function MachineRun(m: Machine, ops: seq<Op>): seq<Value>
    decreases |ops|
  {
    if ops == [] then [] else var (m', seen) := MachineStep(m, ops[0]); [seen] + MachineRun(m', ops[1..])
  }

  function EmittedRun(e: Emitted, ops: seq<Op>): seq<Value>
    decreases |ops|
  {
    if ops == [] then [] else var (e', seen) := EmittedStep(e, ops[0]); [seen] + EmittedRun(e', ops[1..])
  }

  /** Before the first call: the main function's closure, which has no upvalues. */
  function MachineStart(main: Proto): Machine {
    Machine([], [Closure(main, [])], [])
  }

  function EmittedStart(main: Proto): Emitted {
    Emitted([], [Closure(main, [])], [])
  }
}
