/** The fragment of Bitcoin Script that the big-integer generators emit: a main stack, an alt stack, and failure. */
module ScriptMachine {

  datatype Stack = Empty | Cell(top: int, below: Stack)

  datatype State = Failed | Running(main: Stack, alt: Stack)

  /** `If` carries the two branches of OP_IF ... OP_ELSE ... OP_ENDIF; `StackSize` is OP_DEPTH. */
  datatype Instr =
    | Num(n: int)
    | Dup | Dup2 | Dup3 | Drop | Drop2 | Nip | Over | Tuck | Swap | Swap2 | Rot | Rot2 | Pick | Roll
    | ToAlt | FromAlt | Equal | Verify | Within | StackSize
    | Add | Sub | BoolAnd | BoolOr | NumNotEqual | LessThan | GreaterThan | LessThanOrEqual | GreaterThanOrEqual
    | Add1 | Sub1 | Negate | Not
    | If(thn: seq<Instr>, els: seq<Instr>)

  type Script = seq<Instr>

  /** OP_NOTIF ... OP_ENDIF. */
  function NotIf(s: Script): Instr {
    If([], s)
  }

  /** Arithmetic operands are at most four bytes long; results may be longer. */
  predicate IsNum(x: int) {
    -0x7FFF_FFFF <= x <= 0x7FFF_FFFF
  }

  function Bit(b: bool): int {
    if b then 1 else 0
  }

  function Depth(s: Stack): nat {
    if s.Empty? then 0 else 1 + Depth(s.below)
  }

  /** Item n below the top. */
  function Item(s: Stack, n: nat): int
    requires n < Depth(s)
  {
    if n == 0 then s.top else Item(s.below, n - 1)
  }

  function Without(s: Stack, n: nat): Stack
    requires n < Depth(s)
  {
    if n == 0 then s.below else Cell(s.top, Without(s.below, n - 1))
  }

  /** The operations on one number; all other arithmetic takes two. */
  predicate IsUnary(i: Instr) {
    i.Add1? || i.Sub1? || i.Negate? || i.Not?
  }

  function Unary(i: Instr, x: int): int {
    match i
    case Add1 => x + 1
    case Sub1 => x - 1
    case Negate => 0 - x
    case _ => Bit(x == 0)
  }

  /** x is the item below the top item y. */
  function Binary(i: Instr, x: int, y: int): int {
    match i
    case Add => x + y
    case Sub => x - y
    case BoolAnd => Bit(x != 0 && y != 0)
    case BoolOr => Bit(x != 0 || y != 0)
    case NumNotEqual => Bit(x != y)
    case LessThan => Bit(x < y)
    case GreaterThan => Bit(x > y)
    case LessThanOrEqual => Bit(x <= y)
    case _ => Bit(x >= y)
  }

  /** Every instruction but OP_IF. */
  function Basic(i: Instr, s: Stack, alt: Stack): State
    requires !i.If?
  {
    match i
    case Num(n) => Running(Cell(n, s), alt)
    case Dup => (match s case Cell(x, r) => Running(Cell(x, s), alt) case _ => Failed)
    case Dup2 => (match s case Cell(y, Cell(x, r)) => Running(Cell(y, Cell(x, s)), alt) case _ => Failed)
    case Dup3 => (match s case Cell(z, Cell(y, Cell(x, r))) => Running(Cell(z, Cell(y, Cell(x, s))), alt) case _ => Failed)
    case Drop => (match s case Cell(x, r) => Running(r, alt) case _ => Failed)
    case Drop2 => (match s case Cell(y, Cell(x, r)) => Running(r, alt) case _ => Failed)
    case Nip => (match s case Cell(y, Cell(x, r)) => Running(Cell(y, r), alt) case _ => Failed)
    case Over => (match s case Cell(y, Cell(x, r)) => Running(Cell(x, s), alt) case _ => Failed)
    case Tuck => (match s case Cell(y, Cell(x, r)) => Running(Cell(y, Cell(x, Cell(y, r))), alt) case _ => Failed)
    case Swap => (match s case Cell(y, Cell(x, r)) => Running(Cell(x, Cell(y, r)), alt) case _ => Failed)
    case Swap2 =>
      (match s
       case Cell(d, Cell(c, Cell(b, Cell(a, r)))) => Running(Cell(b, Cell(a, Cell(d, Cell(c, r)))), alt)
       case _ => Failed)
    case Rot => (match s case Cell(z, Cell(y, Cell(x, r))) => Running(Cell(x, Cell(z, Cell(y, r))), alt) case _ => Failed)
    case Rot2 =>
      (match s
       case Cell(f, Cell(e, Cell(d, Cell(c, Cell(b, Cell(a, r)))))) =>
         Running(Cell(b, Cell(a, Cell(f, Cell(e, Cell(d, Cell(c, r)))))), alt)
       case _ => Failed)
    case Pick =>
      (match s
       case Cell(n, r) => if IsNum(n) && 0 <= n < Depth(r) then Running(Cell(Item(r, n), r), alt) else Failed
       case _ => Failed)
    case Roll =>
      (match s
       case Cell(n, r) => if IsNum(n) && 0 <= n < Depth(r) then Running(Cell(Item(r, n), Without(r, n)), alt) else Failed
       case _ => Failed)
    case ToAlt => (match s case Cell(x, r) => Running(r, Cell(x, alt)) case _ => Failed)
    case FromAlt => (match alt case Cell(x, r) => Running(Cell(x, s), r) case _ => Failed)
    case Equal => (match s case Cell(y, Cell(x, r)) => Running(Cell(Bit(x == y), r), alt) case _ => Failed)
    case Verify => (match s case Cell(x, r) => if x != 0 then Running(r, alt) else Failed case _ => Failed)
    case StackSize => Running(Cell(Depth(s), s), alt)
    case Within =>
      (match s
       case Cell(hi, Cell(lo, Cell(x, r))) =>
         if IsNum(x) && IsNum(lo) && IsNum(hi) then Running(Cell(Bit(lo <= x < hi), r), alt) else Failed
       case _ => Failed)
    case _ =>
      if IsUnary(i) then
        match s
        case Cell(x, r) => if IsNum(x) then Running(Cell(Unary(i, x), r), alt) else Failed
        case _ => Failed
      else
        match s
        case Cell(y, Cell(x, r)) => if IsNum(x) && IsNum(y) then Running(Cell(Binary(i, x, y), r), alt) else Failed
        case _ => Failed
  }

  /** One instruction. The condition of an OP_IF must be exactly 0 or 1, as tapscript demands. */
  function Step(i: Instr, st: State): State
    decreases i
  {
    if st.Failed? then Failed
    else if i.If? then
      match st.main
      case Cell(c, r) =>
        if c == 1 then Exec(i.thn, Running(r, st.alt))
        else if c == 0 then Exec(i.els, Running(r, st.alt))
        else Failed
      case _ => Failed
    else Basic(i, st.main, st.alt)
  }

  function Exec(p: Script, st: State): State
    decreases p
  {
    if p == [] then st else Exec(p[1..], Step(p[0], st))
  }

  /** A body written out n times. */
  function Repeat(p: Script, n: nat): Script {
    if n == 0 then [] else p + Repeat(p, n - 1)
  }

  /** The third item from the top. */
  lemma {:induction false} Third(x: int, y: int, z: int, r: Stack)
    ensures Depth(Cell(x, Cell(y, Cell(z, r)))) == 3 + Depth(r)
    ensures Item(Cell(x, Cell(y, Cell(z, r))), 2) == z
    ensures Without(Cell(x, Cell(y, Cell(z, r))), 2) == Cell(x, Cell(y, r))
  {
    assert Item(Cell(y, Cell(z, r)), 1) == z;
    assert Without(Cell(y, Cell(z, r)), 1) == Cell(y, r);
  }

  // ---------- the meaning of each instruction as an equation ----------

  lemma {:induction false} StackRules()
    ensures forall n: int, r: Stack, alt: Stack {:trigger Step(Num(n), Running(r, alt))} ::
      Step(Num(n), Running(r, alt)) == Running(Cell(n, r), alt)
    ensures forall x: int, r: Stack, alt: Stack {:trigger Step(Dup, Running(Cell(x, r), alt))} ::
      Step(Dup, Running(Cell(x, r), alt)) == Running(Cell(x, Cell(x, r)), alt)
    ensures forall x: int, y: int, r: Stack, alt: Stack {:trigger Step(Dup2, Running(Cell(y, Cell(x, r)), alt))} ::
      Step(Dup2, Running(Cell(y, Cell(x, r)), alt)) == Running(Cell(y, Cell(x, Cell(y, Cell(x, r)))), alt)
    ensures forall x: int, y: int, z: int, r: Stack, alt: Stack {:trigger Step(Dup3, Running(Cell(z, Cell(y, Cell(x, r))), alt))} ::
      Step(Dup3, Running(Cell(z, Cell(y, Cell(x, r))), alt)) ==
      Running(Cell(z, Cell(y, Cell(x, Cell(z, Cell(y, Cell(x, r)))))), alt)
    ensures forall x: int, r: Stack, alt: Stack {:trigger Step(Drop, Running(Cell(x, r), alt))} ::
      Step(Drop, Running(Cell(x, r), alt)) == Running(r, alt)
    ensures forall x: int, y: int, r: Stack, alt: Stack {:trigger Step(Drop2, Running(Cell(y, Cell(x, r)), alt))} ::
      Step(Drop2, Running(Cell(y, Cell(x, r)), alt)) == Running(r, alt)
    ensures forall x: int, y: int, r: Stack, alt: Stack {:trigger Step(Nip, Running(Cell(y, Cell(x, r)), alt))} ::
      Step(Nip, Running(Cell(y, Cell(x, r)), alt)) == Running(Cell(y, r), alt)
    ensures forall x: int, y: int, r: Stack, alt: Stack {:trigger Step(Over, Running(Cell(y, Cell(x, r)), alt))} ::
      Step(Over, Running(Cell(y, Cell(x, r)), alt)) == Running(Cell(x, Cell(y, Cell(x, r))), alt)
    ensures forall x: int, y: int, r: Stack, alt: Stack {:trigger Step(Tuck, Running(Cell(y, Cell(x, r)), alt))} ::
      Step(Tuck, Running(Cell(y, Cell(x, r)), alt)) == Running(Cell(y, Cell(x, Cell(y, r))), alt)
    ensures forall x: int, y: int, r: Stack, alt: Stack {:trigger Step(Swap, Running(Cell(y, Cell(x, r)), alt))} ::
      Step(Swap, Running(Cell(y, Cell(x, r)), alt)) == Running(Cell(x, Cell(y, r)), alt)
  {
    hide Exec;
  }

  lemma {:induction false} MoreStackRules()
    ensures forall x: int, y: int, z: int, r: Stack, alt: Stack {:trigger Step(Rot, Running(Cell(z, Cell(y, Cell(x, r))), alt))} ::
      Step(Rot, Running(Cell(z, Cell(y, Cell(x, r))), alt)) == Running(Cell(x, Cell(z, Cell(y, r))), alt)
    ensures forall a: int, b: int, c: int, d: int, r: Stack, alt: Stack {:trigger Step(Swap2, Running(Cell(d, Cell(c, Cell(b, Cell(a, r)))), alt))} ::
      Step(Swap2, Running(Cell(d, Cell(c, Cell(b, Cell(a, r)))), alt)) ==
      Running(Cell(b, Cell(a, Cell(d, Cell(c, r)))), alt)
    ensures forall a: int, b: int, c: int, d: int, e: int, f: int, r: Stack, alt: Stack {:trigger Step(Rot2, Running(Cell(f, Cell(e, Cell(d, Cell(c, Cell(b, Cell(a, r)))))), alt))} ::
      Step(Rot2, Running(Cell(f, Cell(e, Cell(d, Cell(c, Cell(b, Cell(a, r)))))), alt)) ==
      Running(Cell(b, Cell(a, Cell(f, Cell(e, Cell(d, Cell(c, r)))))), alt)
    ensures forall x: int, r: Stack, alt: Stack {:trigger Step(ToAlt, Running(Cell(x, r), alt))} ::
      Step(ToAlt, Running(Cell(x, r), alt)) == Running(r, Cell(x, alt))
    ensures forall x: int, r: Stack, alt: Stack {:trigger Step(FromAlt, Running(r, Cell(x, alt)))} ::
      Step(FromAlt, Running(r, Cell(x, alt))) == Running(Cell(x, r), alt)
    ensures forall i: Instr {:trigger Step(i, Failed)} ::
      Step(i, Failed) == Failed
    ensures forall c: int, thn: Script, els: Script, r: Stack, alt: Stack {:trigger Step(If(thn, els), Running(Cell(c, r), alt))} ::
      Step(If(thn, els), Running(Cell(c, r), alt)) ==
      if c == 1 then Exec(thn, Running(r, alt)) else if c == 0 then Exec(els, Running(r, alt)) else Failed
  {
    hide Exec;
  }

  /** Fixed small depths. */
  lemma {:induction false} DepthRules()
    ensures forall x: int, y: int, z: int, r: Stack, alt: Stack {:trigger Step(Pick, Running(Cell(2, Cell(x, Cell(y, Cell(z, r)))), alt))} ::
      Step(Pick, Running(Cell(2, Cell(x, Cell(y, Cell(z, r)))), alt)) ==
      Running(Cell(z, Cell(x, Cell(y, Cell(z, r)))), alt)
    ensures forall w: int, x: int, y: int, z: int, r: Stack, alt: Stack {:trigger Step(Roll, Running(Cell(3, Cell(w, Cell(x, Cell(y, Cell(z, r))))), alt))} ::
      Step(Roll, Running(Cell(3, Cell(w, Cell(x, Cell(y, Cell(z, r))))), alt)) ==
      Running(Cell(z, Cell(w, Cell(x, Cell(y, r)))), alt)
  {
    hide Exec;
    forall x: int, y: int, z: int, r: Stack ensures Depth(Cell(x, Cell(y, Cell(z, r)))) >= 3 && Item(Cell(x, Cell(y, Cell(z, r))), 2) == z {
      Third(x, y, z, r);
    }
    forall w: int, x: int, y: int, z: int, r: Stack
      ensures Depth(Cell(w, Cell(x, Cell(y, Cell(z, r))))) >= 4 && Item(Cell(w, Cell(x, Cell(y, Cell(z, r)))), 3) == z &&
              Without(Cell(w, Cell(x, Cell(y, Cell(z, r)))), 3) == Cell(w, Cell(x, Cell(y, r)))
    {
      Third(x, y, z, r);
    }
  }

  lemma {:induction false} UnaryRules()
    ensures forall x: int, r: Stack, alt: Stack {:trigger Step(Add1, Running(Cell(x, r), alt))} ::
      IsNum(x) ==> Step(Add1, Running(Cell(x, r), alt)) == Running(Cell(x + 1, r), alt)
    ensures forall x: int, r: Stack, alt: Stack {:trigger Step(Sub1, Running(Cell(x, r), alt))} ::
      IsNum(x) ==> Step(Sub1, Running(Cell(x, r), alt)) == Running(Cell(x - 1, r), alt)
    ensures forall x: int, r: Stack, alt: Stack {:trigger Step(Negate, Running(Cell(x, r), alt))} ::
      IsNum(x) ==> Step(Negate, Running(Cell(x, r), alt)) == Running(Cell(0 - x, r), alt)
    ensures forall x: int, r: Stack, alt: Stack {:trigger Step(Not, Running(Cell(x, r), alt))} ::
      IsNum(x) ==> Step(Not, Running(Cell(x, r), alt)) == Running(Cell(Bit(x == 0), r), alt)
  {
    hide Exec;
  }

  lemma {:induction false} ComparisonRules()
    ensures forall x: int, y: int, r: Stack, alt: Stack {:trigger Step(LessThan, Running(Cell(y, Cell(x, r)), alt))} ::
      IsNum(x) && IsNum(y) ==> Step(LessThan, Running(Cell(y, Cell(x, r)), alt)) == Running(Cell(Bit(x < y), r), alt)
    ensures forall x: int, y: int, r: Stack, alt: Stack {:trigger Step(GreaterThan, Running(Cell(y, Cell(x, r)), alt))} ::
      IsNum(x) && IsNum(y) ==>
        Step(GreaterThan, Running(Cell(y, Cell(x, r)), alt)) == Running(Cell(Bit(x > y), r), alt)
    ensures forall x: int, y: int, r: Stack, alt: Stack {:trigger Step(LessThanOrEqual, Running(Cell(y, Cell(x, r)), alt))} ::
      IsNum(x) && IsNum(y) ==>
        Step(LessThanOrEqual, Running(Cell(y, Cell(x, r)), alt)) == Running(Cell(Bit(x <= y), r), alt)
    ensures forall x: int, y: int, r: Stack, alt: Stack {:trigger Step(GreaterThanOrEqual, Running(Cell(y, Cell(x, r)), alt))} ::
      IsNum(x) && IsNum(y) ==>
        Step(GreaterThanOrEqual, Running(Cell(y, Cell(x, r)), alt)) == Running(Cell(Bit(x >= y), r), alt)
  {
    hide Exec;
  }

  lemma {:induction false} NumberRules()
    ensures forall x: int, y: int, r: Stack, alt: Stack {:trigger Step(Add, Running(Cell(y, Cell(x, r)), alt))} ::
      IsNum(x) && IsNum(y) ==> Step(Add, Running(Cell(y, Cell(x, r)), alt)) == Running(Cell(x + y, r), alt)
    ensures forall x: int, y: int, r: Stack, alt: Stack {:trigger Step(Sub, Running(Cell(y, Cell(x, r)), alt))} ::
      IsNum(x) && IsNum(y) ==> Step(Sub, Running(Cell(y, Cell(x, r)), alt)) == Running(Cell(x - y, r), alt)
    ensures forall x: int, y: int, r: Stack, alt: Stack {:trigger Step(LessThan, Running(Cell(y, Cell(x, r)), alt))} ::
      IsNum(x) && IsNum(y) ==> Step(LessThan, Running(Cell(y, Cell(x, r)), alt)) == Running(Cell(Bit(x < y), r), alt)
    ensures forall x: int, y: int, r: Stack, alt: Stack {:trigger Step(GreaterThan, Running(Cell(y, Cell(x, r)), alt))} ::
      IsNum(x) && IsNum(y) ==>
        Step(GreaterThan, Running(Cell(y, Cell(x, r)), alt)) == Running(Cell(Bit(x > y), r), alt)
    ensures forall x: int, y: int, r: Stack, alt: Stack {:trigger Step(LessThanOrEqual, Running(Cell(y, Cell(x, r)), alt))} ::
      IsNum(x) && IsNum(y) ==>
        Step(LessThanOrEqual, Running(Cell(y, Cell(x, r)), alt)) == Running(Cell(Bit(x <= y), r), alt)
    ensures forall x: int, y: int, r: Stack, alt: Stack {:trigger Step(GreaterThanOrEqual, Running(Cell(y, Cell(x, r)), alt))} ::
      IsNum(x) && IsNum(y) ==>
        Step(GreaterThanOrEqual, Running(Cell(y, Cell(x, r)), alt)) == Running(Cell(Bit(x >= y), r), alt)
    ensures forall x: int, r: Stack, alt: Stack {:trigger Step(Add1, Running(Cell(x, r), alt))} ::
      IsNum(x) ==> Step(Add1, Running(Cell(x, r), alt)) == Running(Cell(x + 1, r), alt)
    ensures forall x: int, r: Stack, alt: Stack {:trigger Step(Sub1, Running(Cell(x, r), alt))} ::
      IsNum(x) ==> Step(Sub1, Running(Cell(x, r), alt)) == Running(Cell(x - 1, r), alt)
    ensures forall x: int, r: Stack, alt: Stack {:trigger Step(Negate, Running(Cell(x, r), alt))} ::
      IsNum(x) ==> Step(Negate, Running(Cell(x, r), alt)) == Running(Cell(0 - x, r), alt)
    ensures forall x: int, r: Stack, alt: Stack {:trigger Step(Not, Running(Cell(x, r), alt))} ::
      IsNum(x) ==> Step(Not, Running(Cell(x, r), alt)) == Running(Cell(Bit(x == 0), r), alt)
  {
    hide Exec;
    UnaryRules();
    ComparisonRules();
  }

  lemma {:induction false} LogicRules()
    ensures forall x: int, y: int, r: Stack, alt: Stack {:trigger Step(BoolAnd, Running(Cell(y, Cell(x, r)), alt))} ::
      IsNum(x) && IsNum(y) ==>
        Step(BoolAnd, Running(Cell(y, Cell(x, r)), alt)) == Running(Cell(Bit(x != 0 && y != 0), r), alt)
    ensures forall x: int, y: int, r: Stack, alt: Stack {:trigger Step(BoolOr, Running(Cell(y, Cell(x, r)), alt))} ::
      IsNum(x) && IsNum(y) ==>
        Step(BoolOr, Running(Cell(y, Cell(x, r)), alt)) == Running(Cell(Bit(x != 0 || y != 0), r), alt)
    ensures forall x: int, y: int, r: Stack, alt: Stack {:trigger Step(NumNotEqual, Running(Cell(y, Cell(x, r)), alt))} ::
      IsNum(x) && IsNum(y) ==>
        Step(NumNotEqual, Running(Cell(y, Cell(x, r)), alt)) == Running(Cell(Bit(x != y), r), alt)
    ensures forall x: int, y: int, r: Stack, alt: Stack {:trigger Step(Equal, Running(Cell(y, Cell(x, r)), alt))} ::
      Step(Equal, Running(Cell(y, Cell(x, r)), alt)) == Running(Cell(Bit(x == y), r), alt)
    ensures forall x: int, r: Stack, alt: Stack {:trigger Step(Verify, Running(Cell(x, r), alt))} ::
      Step(Verify, Running(Cell(x, r), alt)) == if x != 0 then Running(r, alt) else Failed
    ensures forall x: int, lo: int, hi: int, r: Stack, alt: Stack {:trigger Step(Within, Running(Cell(hi, Cell(lo, Cell(x, r))), alt))} ::
      Step(Within, Running(Cell(hi, Cell(lo, Cell(x, r))), alt)) ==
      if IsNum(x) && IsNum(lo) && IsNum(hi) then Running(Cell(Bit(lo <= x < hi), r), alt) else Failed
  {
    hide Exec;
  }

  lemma {:induction false} StackSizeStep(s: Stack, alt: Stack)
    ensures Step(StackSize, Running(s, alt)) == Running(Cell(Depth(s), s), alt)
  {
    hide Exec;
  }

  // ---------- composition ----------

  lemma {:induction false} ExecAppend(p: Script, q: Script, st: State)
    ensures Exec(p + q, st) == Exec(q, Exec(p, st))
    decreases |p|
  {
    if p == [] {
      assert p + q == q;
    } else {
      assert (p + q)[0] == p[0] && (p + q)[1..] == p[1..] + q;
      ExecAppend(p[1..], q, Step(p[0], st));
    }
  }

  lemma {:induction false} ExecAppend3(p: Script, q: Script, r: Script, st: State)
    ensures Exec(p + q + r, st) == Exec(r, Exec(q, Exec(p, st)))
  {
    hide Exec;
    ExecAppend(p + q, r, st);
    ExecAppend(p, q, st);
  }

  lemma {:induction false} ExecAppend4(p: Script, q: Script, r: Script, s: Script, st: State)
    ensures Exec(p + q + r + s, st) == Exec(s, Exec(r, Exec(q, Exec(p, st))))
  {
    hide Exec;
    ExecAppend(p + q + r, s, st);
    ExecAppend3(p, q, r, st);
  }

  lemma {:induction false} ExecAppend5(p: Script, q: Script, r: Script, s: Script, t: Script, st: State)
    ensures Exec(p + q + r + s + t, st) == Exec(t, Exec(s, Exec(r, Exec(q, Exec(p, st)))))
  {
    hide Exec;
    ExecAppend(p + q + r + s, t, st);
    ExecAppend4(p, q, r, s, st);
  }

  lemma {:induction false} ExecRepeat(p: Script, n: nat, st: State)
    requires n > 0
    ensures Exec(Repeat(p, n), st) == Exec(Repeat(p, n - 1), Exec(p, st))
  {
    ExecAppend(p, Repeat(p, n - 1), st);
  }

  lemma {:induction false} ExecRepeatLast(p: Script, n: nat, st: State)
    requires n > 0
    ensures Exec(Repeat(p, n), st) == Exec(p, Exec(Repeat(p, n - 1), st))
    decreases n
  {
    hide Exec;
    ExecRepeat(p, n, st);
    if n == 1 {
      Exec0(Exec(p, st));
      Exec0(st);
    } else {
      ExecRepeat(p, n - 1, st);
      ExecRepeatLast(p, n - 1, Exec(p, st));
    }
  }

  lemma {:induction false} ExecFailed(p: Script)
    ensures Exec(p, Failed) == Failed
    decreases |p|
  {
    if p != [] { ExecFailed(p[1..]); }
  }

  lemma {:induction false} Exec0(st: State)
    ensures Exec([], st) == st
  {
  }

  lemma {:induction false} Exec1(a: Instr, st: State)
    ensures Exec([a], st) == Step(a, st)
  {
    assert [a][1..] == [];
  }

  lemma {:induction false} Exec2(a: Instr, b: Instr, st: State)
    ensures Exec([a, b], st) == Step(b, Step(a, st))
  {
    hide Step;
    assert [a, b][1..] == [b];
    Exec1(b, Step(a, st));
  }

  lemma {:induction false} Exec3(a: Instr, b: Instr, c: Instr, st: State)
    ensures Exec([a, b, c], st) == Step(c, Step(b, Step(a, st)))
  {
    hide Step;
    assert [a, b, c][1..] == [b, c];
    Exec2(b, c, Step(a, st));
  }

  lemma {:induction false} Exec4(a: Instr, b: Instr, c: Instr, d: Instr, st: State)
    ensures Exec([a, b, c, d], st) == Step(d, Step(c, Step(b, Step(a, st))))
  {
    hide Step;
    assert [a, b, c, d][1..] == [b, c, d];
    Exec3(b, c, d, Step(a, st));
  }

  lemma {:induction false} Exec5(a: Instr, b: Instr, c: Instr, d: Instr, e: Instr, st: State)
    ensures Exec([a, b, c, d, e], st) == Step(e, Step(d, Step(c, Step(b, Step(a, st)))))
  {
    hide Step;
    assert [a, b, c, d, e][1..] == [b, c, d, e];
    Exec4(b, c, d, e, Step(a, st));
  }

  lemma {:induction false} Exec6(a: Instr, b: Instr, c: Instr, d: Instr, e: Instr, f: Instr, st: State)
    ensures Exec([a, b, c, d, e, f], st) == Step(f, Step(e, Step(d, Step(c, Step(b, Step(a, st))))))
  {
    hide Step;
    assert [a, b, c, d, e, f][1..] == [b, c, d, e, f];
    Exec5(b, c, d, e, f, Step(a, st));
  }

  lemma {:induction false} Exec7(a: Instr, b: Instr, c: Instr, d: Instr, e: Instr, f: Instr, g: Instr, st: State)
    ensures Exec([a, b, c, d, e, f, g], st) == Step(g, Step(f, Step(e, Step(d, Step(c, Step(b, Step(a, st)))))))
  {
    hide Step;
    assert [a, b, c, d, e, f, g][1..] == [b, c, d, e, f, g];
    Exec6(b, c, d, e, f, g, Step(a, st));
  }

  lemma {:induction false} Exec8(a: Instr, b: Instr, c: Instr, d: Instr, e: Instr, f: Instr, g: Instr, h: Instr, st: State)
    ensures Exec([a, b, c, d, e, f, g, h], st) == Step(h, Step(g, Step(f, Step(e, Step(d, Step(c, Step(b, Step(a, st))))))))
  {
    hide Step;
    assert [a, b, c, d, e, f, g, h][1..] == [b, c, d, e, f, g, h];
    Exec7(b, c, d, e, f, g, h, Step(a, st));
  }

  // ---------- lists of cells ----------

  /** The cells of l on top of r, l[0] topmost. */
  function Prepend(l: seq<int>, r: Stack): Stack {
    if l == [] then r else Cell(l[0], Prepend(l[1..], r))
  }

  lemma {:induction false} PrependAppend(a: seq<int>, b: seq<int>, r: Stack)
    ensures Prepend(a + b, r) == Prepend(a, Prepend(b, r))
    decreases |a|
  {
    if a == [] {
      assert a + b == b;
    } else {
      assert (a + b)[1..] == a[1..] + b;
      PrependAppend(a[1..], b, r);
    }
  }

  lemma {:induction false} PrependFirst(x: int, l: seq<int>, r: Stack)
    ensures Prepend([x] + l, r) == Cell(x, Prepend(l, r))
  {
    assert ([x] + l)[1..] == l;
  }

  lemma {:induction false} PrependLast(l: seq<int>, x: int, r: Stack)
    ensures Prepend(l + [x], r) == Prepend(l, Cell(x, r))
  {
    PrependAppend(l, [x], r);
    assert [x][1..] == [];
  }

  lemma {:induction false} NoCells(r: Stack)
    ensures Prepend([], r) == r && PushAll([], r) == r
  {
  }

  lemma {:induction false} NoTurns(p: Script)
    ensures Repeat(p, 0) == []
  {
  }

  /** The item below a list of cells, by its depth. */
  lemma {:induction false} ItemBelow(pre: seq<int>, x: int, r: Stack)
    ensures |pre| < Depth(Prepend(pre, Cell(x, r)))
    ensures Item(Prepend(pre, Cell(x, r)), |pre|) == x
    ensures Without(Prepend(pre, Cell(x, r)), |pre|) == Prepend(pre, r)
    decreases |pre|
  {
    if pre != [] { ItemBelow(pre[1..], x, r); }
  }

  lemma {:induction false} PickBelow(pre: seq<int>, x: int, r: Stack, alt: Stack)
    requires |pre| <= 0x7FFF_FFFF
    ensures Exec([Num(|pre|), Pick], Running(Prepend(pre, Cell(x, r)), alt)) ==
            Running(Cell(x, Prepend(pre, Cell(x, r))), alt)
  {
    ItemBelow(pre, x, r);
    Exec2(Num(|pre|), Pick, Running(Prepend(pre, Cell(x, r)), alt));
  }

  lemma {:induction false} RollBelow(pre: seq<int>, x: int, r: Stack, alt: Stack)
    requires |pre| <= 0x7FFF_FFFF
    ensures Exec([Num(|pre|), Roll], Running(Prepend(pre, Cell(x, r)), alt)) ==
            Running(Cell(x, Prepend(pre, r)), alt)
  {
    ItemBelow(pre, x, r);
    Exec2(Num(|pre|), Roll, Running(Prepend(pre, Cell(x, r)), alt));
  }

  // ---------- the alt stack ----------

  /** The cells of l pushed one after another, l[0] first. */
  function PushAll(l: seq<int>, alt: Stack): Stack {
    if l == [] then alt else PushAll(l[1..], Cell(l[0], alt))
  }

  lemma {:induction false} PushAllAppend(a: seq<int>, b: seq<int>, alt: Stack)
    ensures PushAll(a + b, alt) == PushAll(b, PushAll(a, alt))
    decreases |a|
  {
    if a == [] {
      assert a + b == b;
    } else {
      assert (a + b)[1..] == a[1..] + b;
      PushAllAppend(a[1..], b, Cell(a[0], alt));
    }
  }

  lemma {:induction false} PushFirst(x: int, l: seq<int>, alt: Stack)
    ensures PushAll([x] + l, alt) == PushAll(l, Cell(x, alt))
  {
    assert ([x] + l)[1..] == l;
  }

  lemma {:induction false} PushLast(l: seq<int>, x: int, alt: Stack)
    ensures PushAll(l + [x], alt) == Cell(x, PushAll(l, alt))
  {
    PushAllAppend(l, [x], alt);
    assert [x][1..] == [];
  }

  lemma {:induction false} PushOne(x: int, alt: Stack)
    ensures PushAll([x], alt) == Cell(x, alt)
  {
    assert [x][1..] == [];
  }

  lemma {:induction false} ToAltAll(l: seq<int>, r: Stack, alt: Stack)
    ensures Exec(Repeat([ToAlt], |l|), Running(Prepend(l, r), alt)) == Running(r, PushAll(l, alt))
    decreases |l|
  {
    if l == [] {
    } else {
      ExecRepeat([ToAlt], |l|, Running(Prepend(l, r), alt));
      Exec1(ToAlt, Running(Prepend(l, r), alt));
      ToAltAll(l[1..], r, Cell(l[0], alt));
    }
  }

  lemma {:induction false} FromAltAll(l: seq<int>, r: Stack, alt: Stack)
    ensures Exec(Repeat([FromAlt], |l|), Running(r, PushAll(l, alt))) == Running(Prepend(l, r), alt)
    decreases |l|
  {
    if l == [] {
    } else {
      var n := |l| - 1;
      var x := l[n];
      assert l == l[..n] + [x];
      PushAllAppend(l[..n], [x], alt);
      PrependAppend(l[..n], [x], r);
      ExecRepeat([FromAlt], |l|, Running(r, PushAll(l, alt)));
      Exec1(FromAlt, Running(r, PushAll(l, alt)));
      FromAltAll(l[..n], Cell(x, r), alt);
    }
  }
}
