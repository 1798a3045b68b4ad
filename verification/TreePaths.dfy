/** Addresses of instructions in a call tree, their place in execution order, and the
    debugger's meaning of "step over" in terms of the tree alone. */
module TreePaths {
  import opened Types
  import opened CallTree

  /** `Inside(3, Inside(0, At(2)))`: the third instruction of the frame opened by the
      first instruction of the frame opened by the root frame's fourth instruction. */
  datatype Path = At(index: nat) | Inside(index: nat, inner: Path)

  ghost predicate Valid(code: seq<Instr>, p: Path) {
    && p.index < |code|
    && (p.Inside? ==> HasCode(code[p.index]) && Valid(ChildCode(code[p.index]), p.inner))
  }

  /** How many frames are open at `p`, the root frame included. */
  ghost function Depth(p: Path): nat {
    if p.At? then 1 else 1 + Depth(p.inner)
  }

  ghost function InstrAt(code: seq<Instr>, p: Path): Instr
    requires Valid(code, p)
    decreases p
  {
    if p.At? then code[p.index] else InstrAt(ChildCode(code[p.index]), p.inner)
  }

  /** How many steps execute before the k-th instruction of `code`. */
  ghost function Before(code: seq<Instr>, k: nat): nat
    requires k <= |code|
  {
    if k == 0 then 0 else Before(code, k - 1) + 1 + Size(ChildCode(code[k - 1]))
  }

  /** How many steps execute before the instruction at `p`. */
  ghost function Position(code: seq<Instr>, p: Path): nat
    requires Valid(code, p)
    decreases p
  {
    Before(code, p.index) + if p.At? then 0 else 1 + Position(ChildCode(code[p.index]), p.inner)
  }

  /** The first position past the instruction at `p` and everything it calls. */
  ghost function EndOf(code: seq<Instr>, p: Path): (e: nat)
    requires Valid(code, p)
    ensures Position(code, p) < e
    decreases p
  {
    Before(code, p.index) + 1
    + if p.At? then Size(ChildCode(code[p.index])) else EndOf(ChildCode(code[p.index]), p.inner)
  }

  /** The following instruction of the same frame, whether or not there is one. */
  ghost function Sibling(p: Path): (q: Path)
    ensures Depth(q) == Depth(p)
  {
    match p
    case At(k) => At(k + 1)
    case Inside(k, inner) => Inside(k, Sibling(inner))
  }

  /** The instruction that opened the frame of `p`. */
  ghost function Caller(p: Path): (q: Path)
    requires p.Inside?
    ensures Depth(q) == Depth(p) - 1
  {
    if p.inner.At? then At(p.index) else Inside(p.index, Caller(p.inner))
  }

  /** Where stepping over the instruction at `p` should stop: at the next instruction of
      its own frame; failing that, of the nearest calling frame that has one. */
  ghost function StepOverTarget(code: seq<Instr>, p: Path): Option<Path>
    decreases Depth(p)
  {
    if Valid(code, Sibling(p)) then Some(Sibling(p))
    else if p.At? then None
    else StepOverTarget(code, Caller(p))
  }

  // ---- Sizes ----

  lemma {:induction false} BeforeShift(code: seq<Instr>, k: nat)
    requires 0 < k <= |code|
    ensures Before(code, k) == 1 + Size(ChildCode(code[0])) + Before(code[1..], k - 1)
  {
    if k > 1 {
      BeforeShift(code, k - 1);
    }
  }

  lemma {:induction false} BeforeAll(code: seq<Instr>)
    ensures Before(code, |code|) == Size(code)
    decreases |code|
  {
    if code != [] {
      BeforeShift(code, |code|);
      BeforeAll(code[1..]);
    }
  }

  lemma {:induction false} BeforeMonotone(code: seq<Instr>, j: nat, k: nat)
    requires j <= k <= |code|
    ensures Before(code, j) <= Before(code, k)
    decreases k - j
  {
    if j < k {
      BeforeMonotone(code, j, k - 1);
    }
  }

  // ---- Positions ----

  lemma {:induction false} EndInBounds(code: seq<Instr>, p: Path)
    requires Valid(code, p)
    ensures EndOf(code, p) <= Before(code, p.index + 1) <= Size(code)
    decreases p
  {
    BeforeMonotone(code, p.index + 1, |code|);
    BeforeAll(code);
    if p.Inside? {
      EndInBounds(ChildCode(code[p.index]), p.inner);
    }
  }

  lemma {:induction false} EndCountsCallee(code: seq<Instr>, p: Path)
    requires Valid(code, p)
    ensures EndOf(code, p) == Position(code, p) + 1 + Size(ChildCode(InstrAt(code, p)))
    decreases p
  {
    if p.Inside? {
      EndCountsCallee(ChildCode(code[p.index]), p.inner);
    }
  }

  /** A later sibling starts exactly where the call ends. */
  lemma {:induction false} SiblingPosition(code: seq<Instr>, p: Path)
    requires Valid(code, p) && Valid(code, Sibling(p))
    ensures Position(code, Sibling(p)) == EndOf(code, p)
    decreases p
  {
    if p.Inside? {
      SiblingPosition(ChildCode(code[p.index]), p.inner);
    }
  }

  lemma {:induction false} CallerValid(code: seq<Instr>, p: Path)
    requires Valid(code, p) && p.Inside?
    ensures Valid(code, Caller(p))
    decreases p
  {
    if p.inner.Inside? {
      CallerValid(ChildCode(code[p.index]), p.inner);
    }
  }

  /** The last instruction of a frame ends where the instruction that opened it ends. */
  lemma {:induction false} LastEndsWithCaller(code: seq<Instr>, p: Path)
    requires Valid(code, p) && !Valid(code, Sibling(p))
    ensures p.At? ==> EndOf(code, p) == Size(code)
    ensures p.Inside? ==> Valid(code, Caller(p)) && EndOf(code, p) == EndOf(code, Caller(p))
    decreases p
  {
    if p.At? {
      BeforeAll(code);
    } else {
      CallerValid(code, p);
      LastEndsWithCaller(ChildCode(code[p.index]), p.inner);
    }
  }

  /** The step-over target is the first instruction after the whole call, and sits no
      deeper than `p`; without a target the call is the last thing executed. */
  lemma {:induction false} TargetIsEnd(code: seq<Instr>, p: Path)
    requires Valid(code, p)
    ensures match StepOverTarget(code, p)
            case Some(q) => Valid(code, q) && Depth(q) <= Depth(p) && Position(code, q) == EndOf(code, p)
            case None => EndOf(code, p) == Size(code)
    decreases Depth(p)
  {
    if Valid(code, Sibling(p)) {
      SiblingPosition(code, p);
    } else {
      LastEndsWithCaller(code, p);
      if p.Inside? {
        TargetIsEnd(code, Caller(p));
      }
    }
  }

  // ---- Positions and paths are in bijection ----

  /** `p`, an address in `code[1..]`, as an address in `code`. */
  ghost function Shift(p: Path): Path {
    if p.At? then At(p.index + 1) else Inside(p.index + 1, p.inner)
  }

  /** The instruction that executes `i`-th. */
  ghost function PathAt(code: seq<Instr>, i: nat): Path
    requires i < Size(code)
  {
    var callee := if HasCode(code[0]) then Size(code[0].child.value.body.code) else 0;
    if i == 0 then At(0)
    else if i <= callee then Inside(0, PathAt(code[0].child.value.body.code, i - 1))
    else Shift(PathAt(code[1..], i - 1 - callee))
  }

  lemma ShiftPosition(code: seq<Instr>, q: Path)
    requires code != [] && Valid(code[1..], q)
    ensures Valid(code, Shift(q))
    ensures Position(code, Shift(q)) == 1 + Size(ChildCode(code[0])) + Position(code[1..], q)
  {
    BeforeShift(code, q.index + 1);
  }

  lemma {:induction false} PathAtPosition(code: seq<Instr>, i: nat)
    requires i < Size(code)
    ensures Valid(code, PathAt(code, i)) && Position(code, PathAt(code, i)) == i
  {
    var callee := Size(ChildCode(code[0]));
    if 0 < i <= callee {
      PathAtPosition(code[0].child.value.body.code, i - 1);
      assert PathAt(code, i) == Inside(0, PathAt(ChildCode(code[0]), i - 1));
    } else if i > 0 {
      PathAtPosition(code[1..], i - 1 - callee);
      ShiftPosition(code, PathAt(code[1..], i - 1 - callee));
    }
  }

  lemma EarlierIndexEndsEarlier(code: seq<Instr>, p: Path, q: Path)
    requires Valid(code, p) && Valid(code, q) && p.index < q.index
    ensures EndOf(code, p) <= Position(code, q)
  {
    EndInBounds(code, p);
    BeforeMonotone(code, p.index + 1, q.index);
  }

  lemma {:induction false} PositionInjective(code: seq<Instr>, p: Path, q: Path)
    requires Valid(code, p) && Valid(code, q) && Position(code, p) == Position(code, q)
    ensures p == q
    decreases p
  {
    if p.index < q.index {
      EarlierIndexEndsEarlier(code, p, q);
    } else if q.index < p.index {
      EarlierIndexEndsEarlier(code, q, p);
    } else if p.Inside? && q.Inside? {
      PositionInjective(ChildCode(code[p.index]), p.inner, q.inner);
    }
  }

  /** `p` is the address, and the only one, of the instruction that executes `i`-th. */
  ghost predicate OnlyPathAt(code: seq<Instr>, p: Path, i: nat) {
    && Valid(code, p) && Position(code, p) == i
    && forall q :: Valid(code, q) && Position(code, q) == i ==> q == p
  }

  lemma OnlyPathAtPosition(code: seq<Instr>, i: nat)
    requires i < Size(code)
    ensures OnlyPathAt(code, PathAt(code, i), i)
  {
    PathAtPosition(code, i);
    forall q | Valid(code, q) && Position(code, q) == i
      ensures q == PathAt(code, i)
    {
      PositionInjective(code, PathAt(code, i), q);
    }
  }

  /** Everything between an instruction and its end is called by it, hence deeper. */
  lemma {:induction false} CalleeIsDeeper(code: seq<Instr>, p: Path, q: Path)
    requires Valid(code, p) && Valid(code, q)
    requires Position(code, p) < Position(code, q) < EndOf(code, p)
    ensures Depth(q) > Depth(p)
    decreases p
  {
    if p.index < q.index {
      EarlierIndexEndsEarlier(code, p, q);
    } else if q.index < p.index {
      EarlierIndexEndsEarlier(code, q, p);
    } else if p.Inside? && q.Inside? {
      CalleeIsDeeper(ChildCode(code[p.index]), p.inner, q.inner);
    }
  }
}
