/**
 Two machines for the same intermediate code. The first runs it on virtual
 registers. The second runs the allocator's output on seven physical registers
 of each class and a byte-addressed frame, where calls destroy the caller-saved
 registers that their mask does not name. What an instruction computes is a
 parameter: any function of its operands' bytes, of the variables whose address
 may be taken, and of the rest of the world (memory, flags, output).
 */
module Machine {
  import opened Options
  import opened Ir
  import opened SpillCode

  /** What executing an instruction yields: a result, new values of addressed variables, a new world. */
  datatype Outcome<W> = Outcome(res: Bytes, refs: map<nat, Bytes>, w: W)

  /** `junk` is what a call leaves in a register it does not preserve. */
  datatype Sem<!W> = Sem(exec: (IR, Bytes, Bytes, map<nat, Bytes>, W) -> Outcome<W>,
                         taken: (CondKind, W) -> bool,
                         junk: (W, bool, nat) -> Bytes)

  datatype Config<S> = At(b: nat, j: nat, s: S) | Halt(s: S)

  function Zeros(n: nat): (r: Bytes)
    ensures |r| == n && forall k | 0 <= k < n :: r[k] == 0
  {
    if n == 0 then [] else Zeros(n - 1) + [0]
  }

  /** The low `n` bytes of a value. */
  function Fit(x: Bytes, n: nat): (r: Bytes)
    ensures |r| == n
    ensures |x| == n ==> r == x
  {
    if |x| >= n then x[..n] else x + Zeros(n - |x|)
  }

  /** Operand 1 of an address-of instruction names a variable without reading it. */
  function Read1(ir: IR): Option<nat> {
    if ir.kind == BOFS then None else ir.opr1
  }

  function SizeOf(p: Prog, v: nat): nat {
    if v < |p.vregs| then p.vregs[v].size else 0
  }

  predicate Addressed(p: Prog, v: nat) {
    v < |p.vregs| && p.vregs[v].addressed
  }

  function Flonum(p: Prog, v: nat): bool {
    v < |p.vregs| && p.vregs[v].flonum
  }

  function NewRef(refs: map<nat, Bytes>, v: nat, was: Bytes): Bytes {
    if v in refs then refs[v] else was
  }

  // ----- Virtual registers -----

  datatype VState<W> = VState(env: seq<Bytes>, w: W)

  function EnvAt(env: seq<Bytes>, v: nat): Bytes {
    if v < |env| then env[v] else []
  }

  function OperandV(p: Prog, env: seq<Bytes>, o: Option<nat>): Bytes {
    match o
    case None => []
    case Some(v) => if IsConst(p.vregs, v) then p.vregs[v].konst.value else EnvAt(env, v)
  }

  function RefsV(p: Prog, env: seq<Bytes>): map<nat, Bytes> {
    map v: nat | v < |p.vregs| && p.vregs[v].addressed :: EnvAt(env, v)
  }

  function OutcomeV<W>(p: Prog, m: Sem<W>, ir: IR, s: VState<W>): Outcome<W> {
    m.exec(ir, OperandV(p, s.env, Read1(ir)), OperandV(p, s.env, ir.opr2), RefsV(p, s.env), s.w)
  }

  function EnvAfter(p: Prog, env: seq<Bytes>, refs: map<nat, Bytes>): seq<Bytes> {
    seq(|env|, v requires 0 <= v < |env| => if Addressed(p, v) then Fit(NewRef(refs, v, env[v]), SizeOf(p, v)) else env[v])
  }

  function ExecV<W>(p: Prog, m: Sem<W>, ir: IR, s: VState<W>): VState<W> {
    var o := OutcomeV(p, m, ir, s);
    var env := EnvAfter(p, s.env, o.refs);
    VState(if ir.dst.Some? && ir.dst.value < |env| then env[ir.dst.value := Fit(o.res, SizeOf(p, ir.dst.value))] else env, o.w)
  }

  predicate Jumps<W>(m: Sem<W>, ir: IR, w: W) {
    ir.kind == JMP && (ir.cond == ANY || m.taken(ir.cond, w))
  }

  function FallThrough<S>(bbs: seq<Block>, b: nat, s: S): Config<S> {
    if b + 1 < |bbs| then At(b + 1, 0, s) else Halt(s)
  }

  function StepV<W>(p: Prog, m: Sem<W>, c: Config<VState<W>>): Config<VState<W>> {
    match c
    case Halt(_) => c
    case At(b, j, s) =>
      if b >= |p.bbs| || j >= |p.bbs[b]| then FallThrough(p.bbs, b, s)
      else if Jumps(m, p.bbs[b][j], s.w) then At(p.bbs[b][j].target, 0, s)
      else if p.bbs[b][j].kind == JMP then At(b, j + 1, s)
      else At(b, j + 1, ExecV(p, m, p.bbs[b][j], s))
  }

  function RunV<W>(p: Prog, m: Sem<W>, c: Config<VState<W>>, n: nat): Config<VState<W>> {
    if n == 0 then c else StepV(p, m, RunV(p, m, c, n - 1))
  }

  // ----- Physical registers and frame -----

  /** Register files by number, with the work register last; the frame by byte address relative to RBP. */
  datatype PState<W> = PState(iregs: seq<Bytes>, fregs: seq<Bytes>, frame: map<int, bv8>, w: W)

  const REGS: nat := 7

  function ReadFrame(frame: map<int, bv8>, o: int, n: nat): (r: Bytes)
    ensures |r| == n
  {
    seq(n, k requires 0 <= k < n => if o + k in frame then frame[o + k] else 0)
  }

  function WriteFrame(frame: map<int, bv8>, o: int, x: Bytes): (r: map<int, bv8>)
    ensures forall a :: a in r <==> a in frame || o <= a < o + |x|
    ensures forall a | a in r :: r[a] == if o <= a < o + |x| then x[a - o] else frame[a]
  {
    if x == [] then frame
    else
      var last := |x| - 1;
      WriteFrame(frame, o, x[..last])[o + last := x[last]]
  }

  function GetReg<W>(t: PState<W>, fl: bool, r: int): Bytes {
    var file := if fl then t.fregs else t.iregs;
    if 0 <= r < |file| then file[r] else []
  }

  function SetReg<W>(t: PState<W>, fl: bool, r: int, x: Bytes): PState<W> {
    if fl then (if 0 <= r < |t.fregs| then t.(fregs := t.fregs[r := x]) else t)
    else (if 0 <= r < |t.iregs| then t.(iregs := t.iregs[r := x]) else t)
  }

  function PhysOf(phys: seq<int>, v: nat): int {
    if v < |phys| then phys[v] else -1
  }

  function OperandP<W>(p: Prog, phys: seq<int>, t: PState<W>, o: Option<nat>): Bytes {
    match o
    case None => []
    case Some(v) =>
      if IsConst(p.vregs, v) then p.vregs[v].konst.value
      else Fit(GetReg(t, Flonum(p, v), PhysOf(phys, v)), SizeOf(p, v))
  }

  function RefsP<W>(p: Prog, offs: seq<int>, t: PState<W>): map<nat, Bytes> {
    map v: nat | v < |p.vregs| && p.vregs[v].addressed :: ReadFrame(t.frame, OffsetOf(offs, v), p.vregs[v].size)
  }

  /** Stores the new values of the addressed variables below number `k`. */
  function WriteRefs(p: Prog, offs: seq<int>, frame: map<int, bv8>, refs: map<nat, Bytes>, k: nat): map<int, bv8>
    requires k <= |p.vregs|
  {
    if k == 0 then frame
    else
      var v, n := k - 1, p.vregs[k - 1].size;
      var rest := WriteRefs(p, offs, frame, refs, v);
      if p.vregs[v].addressed
      then WriteFrame(rest, OffsetOf(offs, v), Fit(NewRef(refs, v, ReadFrame(frame, OffsetOf(offs, v), n)), n))
      else rest
  }

  /** RBX, R12, R13, R14 are callee-saved; the others only survive a call whose mask names them. */
  predicate Survives(fl: bool, r: nat, living: set<int>) {
    if fl then r < PHYSICAL_FREG_MAX && r + PHYSICAL_REG_MAX in living
    else r in {0, 3, 4, 5} || (r in {1, 2} && r in living)
  }

  function CallFile<W>(m: Sem<W>, w: W, fl: bool, file: seq<Bytes>, living: set<int>): seq<Bytes> {
    seq(|file|, r requires 0 <= r < |file| => if Survives(fl, r, living) then file[r] else m.junk(w, fl, r))
  }

  function AfterCall<W>(m: Sem<W>, ir: IR, w: W, t: PState<W>): PState<W> {
    if ir.kind != CALL then t
    else t.(iregs := CallFile(m, w, false, t.iregs, ir.living), fregs := CallFile(m, w, true, t.fregs, ir.living))
  }

  /** Code identity does not include the mask. */
  function Erase(ir: IR): IR {
    ir.(living := {})
  }

  function OutcomeP<W>(p: Prog, phys: seq<int>, offs: seq<int>, m: Sem<W>, ir: IR, t: PState<W>): Outcome<W> {
    m.exec(Erase(ir), OperandP(p, phys, t, Read1(ir)), OperandP(p, phys, t, ir.opr2), RefsP(p, offs, t), t.w)
  }

  function Width(size: int): nat {
    if size < 0 then 0 else size
  }

  function ExecP<W>(p: Prog, phys: seq<int>, offs: seq<int>, m: Sem<W>, ir: IR, t: PState<W>): PState<W> {
    if ir.kind == LOAD_SPILLED then
      var v := if ir.dst.Some? then ir.dst.value else 0;
      SetReg(t, Flonum(p, v), SPILLED, ReadFrame(t.frame, ir.value, Width(ir.size)))
    else if ir.kind == STORE_SPILLED then
      var v := if ir.opr1.Some? then ir.opr1.value else 0;
      t.(frame := WriteFrame(t.frame, ir.value, Fit(GetReg(t, Flonum(p, v), SPILLED), Width(ir.size))))
    else
      var o := OutcomeP(p, phys, offs, m, ir, t);
      var t1 := AfterCall(m, ir, o.w, t).(frame := WriteRefs(p, offs, t.frame, o.refs, |p.vregs|), w := o.w);
      if ir.dst.Some? then SetReg(t1, Flonum(p, ir.dst.value), PhysOf(phys, ir.dst.value), Fit(o.res, WORD_SIZE)) else t1
  }

  function StepP<W>(p: Prog, phys: seq<int>, offs: seq<int>, bbs: seq<Block>, m: Sem<W>, c: Config<PState<W>>): Config<PState<W>> {
    match c
    case Halt(_) => c
    case At(b, j, t) =>
      if b >= |bbs| || j >= |bbs[b]| then FallThrough(bbs, b, t)
      else if Jumps(m, bbs[b][j], t.w) then At(bbs[b][j].target, 0, t)
      else if bbs[b][j].kind == JMP then At(b, j + 1, t)
      else At(b, j + 1, ExecP(p, phys, offs, m, bbs[b][j], t))
  }

  function RunP<W>(p: Prog, phys: seq<int>, offs: seq<int>, bbs: seq<Block>, m: Sem<W>, c: Config<PState<W>>, n: nat): Config<PState<W>> {
    if n == 0 then c else StepP(p, phys, offs, bbs, m, RunP(p, phys, offs, bbs, m, c, n - 1))
  }
}
