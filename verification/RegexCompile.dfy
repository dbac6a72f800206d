/** The compiler from trees to SPLIT/JUMP/SAVE programs (cregex_compile.c). */
module RegexCompile {
  import opened CharClass
  import opened RegexTree

  /** An instruction; the instruction pointers of the source are indices into the program. */
  datatype Instr =
    | OpMatch
    | OpCharacter(ch: Char)
    | OpAnyCharacter
    | OpCharacterClass(klass: ClassBits)
    | OpCharacterClassNegated(klass: ClassBits)
    | OpSplit(first: nat, second: nat)
    | OpJump(target: nat)
    | OpAssertBegin
    | OpAssertEnd
    | OpSave(save: nat)

  type Program = seq<Instr>

  function CountInstructions(n: Node): int {
    match n
    case Epsilon => 0
    case Concatenation(l, r) => CountInstructions(l) + CountInstructions(r)
    case Alternation(l, r) => 2 + CountInstructions(l) + CountInstructions(r)
    case Quantifier(nmin, nmax, _, q) =>
      var num := CountInstructions(q);
      if nmax >= nmin then nmin * num + (nmax - nmin) * (num + 1)
      else 1 + (if nmin != 0 then nmin * num else num + 1)
    case Capture(c) => 2 + CountInstructions(c)
    case _ => 1
  }

  predicate NodeIsAnchored(n: Node) {
    match n
    case Concatenation(l, _) => NodeIsAnchored(l)
    case Alternation(l, r) => NodeIsAnchored(l) && NodeIsAnchored(r)
    case Quantifier(_, _, _, q) => NodeIsAnchored(q)
    case AnchorBegin => true
    case Capture(c) => NodeIsAnchored(c)
    case _ => false
  }

  function EstimateInstructions(root: Node): int {
    CountInstructions(root) + (if NodeIsAnchored(root) then 0 else 3) + 2 + 1
  }

  /** The length of the code of n, with its products spelled as repeated addition. */
  function Size(n: Node): nat
    requires Wf(n)
  {
    match n
    case Epsilon => 0
    case Concatenation(l, r) => Size(l) + Size(r)
    case Alternation(l, r) => 2 + Size(l) + Size(r)
    case Quantifier(nmin, nmax, _, q) => QuantifierSize(nmin, nmax, Size(q))
    case Capture(c) => 2 + Size(c)
    case _ => 1
  }

  function QuantifierSize(nmin: nat, nmax: int, num: nat): nat {
    if nmax >= nmin then Times(nmin, num) + Times(nmax - nmin, num + 1)
    else if nmin == 0 then num + 2
    else Times(nmin, num) + 1
  }

  function Times(c: nat, num: nat): nat {
    if c == 0 then 0 else Times(c - 1, num) + num
  }

  lemma TimesNone(num: nat)
    ensures Times(0, num) == 0
  {}

  lemma TimesStep(c: nat, num: nat)
    ensures Times(c + 1, num) == Times(c, num) + num
  {}

  lemma {:induction false} TimesIsProduct(c: nat, num: nat)
    ensures Times(c, num) == c * num
  {
    if c != 0 { TimesIsProduct(c - 1, num); }
  }

  lemma {:induction false} SizeIsCount(n: Node)
    requires Wf(n)
    ensures Size(n) == CountInstructions(n)
  {
    match n
    case Concatenation(l, r) => SizeIsCount(l); SizeIsCount(r);
    case Alternation(l, r) => SizeIsCount(l); SizeIsCount(r);
    case Quantifier(nmin, nmax, _, q) =>
      SizeIsCount(q);
      TimesIsProduct(nmin, Size(q));
      if nmax >= nmin { TimesIsProduct(nmax - nmin, Size(q) + 1); }
    case Capture(c) => SizeIsCount(c);
    case _ =>
  }

  lemma {:induction false} TimesMonotone(i: nat, c: nat, num: nat)
    requires i <= c
    ensures Times(i, num) <= Times(c, num)
    decreases c - i
  {
    if i < c { TimesMonotone(i + 1, c, num); }
  }

  /** How many capture numbers compiling n uses up. */
  function Captures(n: Node): nat {
    match n
    case Concatenation(l, r) => Captures(l) + Captures(r)
    case Alternation(l, r) => Captures(l) + Captures(r)
    case Quantifier(nmin, nmax, _, q) => if nmin == 0 && nmax == 0 then 0 else Captures(q)
    case Capture(c) => 1 + Captures(c)
    case _ => 0
  }

  function Split(greedy: bool, body: nat, out: nat): Instr {
    if greedy then OpSplit(body, out) else OpSplit(out, body)
  }

  // The shapes in which the compiler combines the code of subtrees, each placed at address `at`.

  function AlternationCode(at: nat, left: seq<Instr>, right: seq<Instr>): seq<Instr> {
    [OpSplit(at + 1, at + 2 + |left|)] + left + ([OpJump(at + 2 + |left| + |right|)] + right)
  }

  function OptionalCode(greedy: bool, at: nat, body: seq<Instr>): seq<Instr> {
    [Split(greedy, at + 1, at + 1 + |body|)] + body
  }

  function LoopCode(greedy: bool, at: nat, body: seq<Instr>): seq<Instr> {
    [Split(greedy, at + 1, at + 2 + |body|)] + body + [OpJump(at)]
  }

  function CaptureCode(nc: nat, body: seq<Instr>): seq<Instr> {
    [OpSave(2 * nc)] + body + [OpSave(2 * nc + 1)]
  }

  /** The code of n placed at address `at`, its captures numbered from nc. */
  function Code(n: Node, at: nat, nc: nat): (code: seq<Instr>)
    requires Wf(n)
    ensures |code| == Size(n)
    decreases n, 0
  {
    match n
    case Epsilon => []
    case Character(ch) => [OpCharacter(ch)]
    case AnyCharacter => [OpAnyCharacter]
    case CharacterClass(text) => [OpCharacterClass(ClassBitsOf(text))]
    case CharacterClassNegated(text) => [OpCharacterClassNegated(ClassBitsOf(text))]
    case Concatenation(l, r) => Code(l, at, nc) + Code(r, at + Size(l), nc + Captures(l))
    case Alternation(l, r) =>
      AlternationCode(at, Code(l, at + 1, nc), Code(r, at + 2 + Size(l), nc + Captures(l)))
    case Quantifier(nmin, nmax, greedy, q) => QuantifierCode(nmin, nmax, greedy, q, at, nc)
    case AnchorBegin => [OpAssertBegin]
    case AnchorEnd => [OpAssertEnd]
    case Capture(c) => CaptureCode(nc, Code(c, at + 1, nc + 1))
  }

  function QuantifierCode(nmin: nat, nmax: int, greedy: bool, q: Node, at: nat, nc: nat): (code: seq<Instr>)
    requires Wf(q) && (nmax == -1 || nmin <= nmax)
    ensures |code| == QuantifierSize(nmin, nmax, Size(q))
    decreases q, nmin + (if nmax > nmin then nmax else 0) + 2
  {
    var end := at + Times(nmin, Size(q));
    if nmax > nmin then Copies(q, nmin, at, nc) + Optionals(q, nmax - nmin, greedy, end, nc)
    else if nmax == nmin then Copies(q, nmin, at, nc)
    else if nmin == 0 then LoopCode(greedy, at, Code(q, at + 1, nc))
    else Copies(q, nmin, at, nc) + [Split(greedy, at + Times(nmin - 1, Size(q)), end + 1)]
  }

  /** c copies of q in a row. */
  function Copies(q: Node, c: nat, at: nat, nc: nat): (code: seq<Instr>)
    requires Wf(q)
    ensures |code| == Times(c, Size(q))
    decreases q, c + 1
  {
    if c == 0 then [] else Copies(q, c - 1, at, nc) + Code(q, at + Times(c - 1, Size(q)), nc)
  }

  /** c copies of q in a row, each of which may be skipped. */
  function Optionals(q: Node, c: nat, greedy: bool, at: nat, nc: nat): (code: seq<Instr>)
    requires Wf(q)
    ensures |code| == Times(c, Size(q) + 1)
    decreases q, c + 1
  {
    if c == 0 then [] else
      var split := at + Times(c - 1, Size(q) + 1);
      Optionals(q, c - 1, greedy, at, nc) + OptionalCode(greedy, split, Code(q, split + 1, nc))
  }

  /** The tree that is compiled: a capture around the whole pattern, after a lazy `.*?` unless anchored. */
  function WholePattern(root: Node): (whole: Node)
    ensures Wf(root) ==> Wf(whole)
  {
    assert Wf(root) ==> Wf(Capture(root));
    if NodeIsAnchored(Capture(root)) then Capture(root)
    else Concatenation(Quantifier(0, -1, false, AnyCharacter), Capture(root))
  }

  function Compiled(root: Node): (p: Program)
    requires Wf(root)
  {
    Code(WholePattern(root), 0, 0) + [OpMatch]
  }

  /** The estimate is exact, so the program buffer is filled and never overrun. */
  lemma CompiledSize(root: Node)
    requires Wf(root)
    ensures |Compiled(root)| == EstimateInstructions(root) == Size(WholePattern(root)) + 1
  {
    SizeIsCount(root);
    assert Size(Capture(root)) == 2 + Size(root);
    assert Size(Quantifier(0, -1, false, AnyCharacter)) == 3;
  }

  /** Every branch target of the instruction lies between lo and hi, both included. */
  predicate TargetsWithin(ins: Instr, lo: nat, hi: nat) {
    match ins
    case OpSplit(first, second) => lo <= first <= hi && lo <= second <= hi
    case OpJump(target) => lo <= target <= hi
    case _ => true
  }

  /** No MATCH in the code, and every branch target between lo and hi. */
  predicate Within(code: seq<Instr>, lo: nat, hi: nat) {
    forall k :: 0 <= k < |code| ==> TargetsWithin(code[k], lo, hi) && code[k] != OpMatch
  }

  lemma WithinAppend(a: seq<Instr>, b: seq<Instr>, lo: nat, mid: nat, low: nat, hi: nat)
    requires lo <= low && mid <= hi && Within(a, lo, mid) && Within(b, low, hi)
    ensures Within(a + b, lo, hi)
  {
    forall k | 0 <= k < |a + b|
      ensures TargetsWithin((a + b)[k], lo, hi) && (a + b)[k] != OpMatch
    {
      if k < |a| { assert (a + b)[k] == a[k]; } else { assert (a + b)[k] == b[k - |a|]; }
    }
  }

  lemma WithinPlain(code: seq<Instr>, lo: nat, hi: nat)
    requires |code| <= 1 && forall ins :: ins in code ==> TargetsWithin(ins, lo, hi) && ins != OpMatch
    ensures Within(code, lo, hi)
  {}

  /** One instruction in front of closed code. */
  lemma WithinPrepend(ins: Instr, code: seq<Instr>, lo: nat, low: nat, mid: nat, hi: nat)
    requires lo <= low && mid <= hi && Within(code, low, mid) && TargetsWithin(ins, lo, hi) && ins != OpMatch
    ensures Within([ins] + code, lo, hi)
  {
    assert forall k | 0 < k < |[ins] + code| :: ([ins] + code)[k] == code[k - 1];
  }

  lemma BranchesClosed(at: nat, left: seq<Instr>, right: seq<Instr>)
    requires Within(left, at + 1, at + 1 + |left|)
    requires Within(right, at + 2 + |left|, at + 2 + |left| + |right|)
    ensures Within(AlternationCode(at, left, right), at, at + 2 + |left| + |right|)
  {
    var end := at + 2 + |left| + |right|;
    WithinPrepend(OpSplit(at + 1, at + 2 + |left|), left, at, at + 1, at + 1 + |left|, end);
    WithinPrepend(OpJump(end), right, at, at + 2 + |left|, end, end);
    WithinAppend([OpSplit(at + 1, at + 2 + |left|)] + left, [OpJump(end)] + right, at, end, at, end);
  }

  lemma OptionalClosed(greedy: bool, at: nat, body: seq<Instr>)
    requires Within(body, at + 1, at + 1 + |body|)
    ensures Within(OptionalCode(greedy, at, body), at, at + 1 + |body|)
  {
    WithinPrepend(Split(greedy, at + 1, at + 1 + |body|), body, at, at + 1, at + 1 + |body|, at + 1 + |body|);
  }

  lemma LoopClosed(greedy: bool, at: nat, body: seq<Instr>)
    requires Within(body, at + 1, at + 1 + |body|)
    ensures Within(LoopCode(greedy, at, body), at, at + 2 + |body|)
  {
    var end := at + 2 + |body|;
    WithinPrepend(Split(greedy, at + 1, end), body, at, at + 1, at + 1 + |body|, end);
    WithinAppend([Split(greedy, at + 1, end)] + body, [OpJump(at)], at, end, at, end);
  }

  lemma CaptureClosed(nc: nat, at: nat, body: seq<Instr>)
    requires Within(body, at + 1, at + 1 + |body|)
    ensures Within(CaptureCode(nc, body), at, at + 2 + |body|)
  {
    var end := at + 2 + |body|;
    WithinPrepend(OpSave(2 * nc), body, at, at + 1, at + 1 + |body|, end);
    WithinAppend([OpSave(2 * nc)] + body, [OpSave(2 * nc + 1)], at, end, at, end);
  }

  /** Branches never leave the fragment they were compiled into, except to the address right after it. */
  lemma {:induction false} CodeClosed(n: Node, at: nat, nc: nat)
    requires Wf(n)
    ensures Within(Code(n, at, nc), at, at + Size(n))
    decreases n, 1
  {
    hide Within, Code, Size, Captures, AlternationCode, CaptureCode, QuantifierCode, QuantifierSize;
    CompositeCases(n, at, nc);
    match n
    case Concatenation(l, r) =>
      CodeClosed(l, at, nc);
      CodeClosed(r, at + Size(l), nc + Captures(l));
      WithinAppend(Code(l, at, nc), Code(r, at + Size(l), nc + Captures(l)),
        at, at + Size(l), at + Size(l), at + Size(n));
    case Alternation(l, r) =>
      AlternationClosed(n, l, r, at, nc);
    case Quantifier(nmin, nmax, greedy, q) =>
      QuantifierClosed(nmin, nmax, greedy, q, at, nc);
    case Capture(c) =>
      CodeClosed(c, at + 1, nc + 1);
      CaptureClosed(nc, at, Code(c, at + 1, nc + 1));
    case _ =>
      SimpleClosed(n, at, nc);
  }

  lemma SimpleClosed(n: Node, at: nat, nc: nat)
    requires Wf(n) && !n.Concatenation? && !n.Alternation? && !n.Quantifier? && !n.Capture?
    ensures Within(Code(n, at, nc), at, at + Size(n))
  {
    hide ClassBitsOf, ValidClassText;
  }

  lemma {:induction false} AlternationClosed(n: Node, l: Node, r: Node, at: nat, nc: nat)
    requires n == Alternation(l, r) && Wf(l) && Wf(r)
    ensures Within(AlternationCode(at, Code(l, at + 1, nc), Code(r, at + 2 + Size(l), nc + Captures(l))),
              at, at + 2 + Size(l) + Size(r))
    decreases n, 0
  {
    hide Within, Code, Size, Captures;
    CodeClosed(l, at + 1, nc);
    CodeClosed(r, at + 2 + Size(l), nc + Captures(l));
    BranchesClosed(at, Code(l, at + 1, nc), Code(r, at + 2 + Size(l), nc + Captures(l)));
  }

  lemma {:induction false} QuantifierClosed(nmin: nat, nmax: int, greedy: bool, q: Node, at: nat, nc: nat)
    requires Wf(q) && (nmax == -1 || nmin <= nmax)
    ensures Within(QuantifierCode(nmin, nmax, greedy, q, at, nc), at, at + QuantifierSize(nmin, nmax, Size(q)))
    decreases q, nmin + (if nmax > nmin then nmax else 0) + 3
  {
    hide Within, Code, Size, Copies, Optionals;
    var end := at + Times(nmin, Size(q));
    CopiesClosed(q, nmin, at, nc);
    if nmax > nmin {
      OptionalsClosed(q, nmax - nmin, greedy, end, nc);
      WithinAppend(Copies(q, nmin, at, nc), Optionals(q, nmax - nmin, greedy, end, nc),
        at, end, end, end + Times(nmax - nmin, Size(q) + 1));
    } else if nmax == -1 && nmin == 0 {
      CodeClosed(q, at + 1, nc);
      LoopClosed(greedy, at, Code(q, at + 1, nc));
    } else if nmax == -1 {
      TimesMonotone(nmin - 1, nmin, Size(q));
      WithinPlain([Split(greedy, at + Times(nmin - 1, Size(q)), end + 1)], at, end + 1);
      WithinAppend(Copies(q, nmin, at, nc), [Split(greedy, at + Times(nmin - 1, Size(q)), end + 1)],
        at, end, at, end + 1);
    }
  }

  lemma {:induction false} CopiesClosed(q: Node, c: nat, at: nat, nc: nat)
    requires Wf(q)
    ensures Within(Copies(q, c, at, nc), at, at + Times(c, Size(q)))
    decreases q, c + 2
  {
    hide Within, Code;
    if c == 0 {
      WithinPlain([], at, at);
    } else {
      var mid := at + Times(c - 1, Size(q));
      CopiesClosed(q, c - 1, at, nc);
      CodeClosed(q, mid, nc);
      WithinAppend(Copies(q, c - 1, at, nc), Code(q, mid, nc), at, mid, mid, mid + Size(q));
    }
  }

  lemma {:induction false} OptionalsClosed(q: Node, c: nat, greedy: bool, at: nat, nc: nat)
    requires Wf(q)
    ensures Within(Optionals(q, c, greedy, at, nc), at, at + Times(c, Size(q) + 1))
    decreases q, c + 2
  {
    hide Within, Code, Size, OptionalCode, Optionals, Times;
    TimesNone(Size(q) + 1);
    if c == 0 {
      OptionalsNone(q, greedy, at, nc);
      WithinPlain([], at, at);
    } else {
      TimesStep(c - 1, Size(q) + 1);
      OptionalsStep(q, c - 1, greedy, at, nc);
      var mid := at + Times(c - 1, Size(q) + 1);
      var body := Code(q, mid + 1, nc);
      OptionalsClosed(q, c - 1, greedy, at, nc);
      CodeClosed(q, mid + 1, nc);
      OptionalClosed(greedy, mid, body);
      WithinAppend(Optionals(q, c - 1, greedy, at, nc), OptionalCode(greedy, mid, body),
        at, mid, mid, mid + 1 + Size(q));
    }
  }

  /** A program the VM can run: every address an instruction can lead to is inside it. */
  predicate Runnable(p: Program) {
    && |p| > 0
    && forall pc :: 0 <= pc < |p| ==>
         match p[pc]
         case OpMatch => true
         case OpSplit(first, second) => first < |p| && second < |p|
         case OpJump(target) => target < |p|
         case _ => pc + 1 < |p|
  }

  /** Compiled programs are runnable, and their only MATCH is the last instruction. */
  lemma CompiledRunnable(root: Node)
    requires Wf(root)
    ensures Runnable(Compiled(root))
    ensures forall pc :: 0 <= pc < |Compiled(root)| ==> (Compiled(root)[pc] == OpMatch <==> pc == |Compiled(root)| - 1)
  {
    hide Code, Size;
    var code := Code(WholePattern(root), 0, 0);
    CodeClosed(WholePattern(root), 0, 0);
    assert forall pc | 0 <= pc < |code| :: Compiled(root)[pc] == code[pc];
  }

  /** The defining equations of Code, Size and Captures for composite nodes. */
  lemma CompositeCases(n: Node, at: nat, nc: nat)
    requires Wf(n)
    ensures match n
      case Concatenation(l, r) =>
        && Code(n, at, nc) == Code(l, at, nc) + Code(r, at + Size(l), nc + Captures(l))
        && Size(n) == Size(l) + Size(r) && Captures(n) == Captures(l) + Captures(r)
      case Alternation(l, r) =>
        && Code(n, at, nc) ==
           AlternationCode(at, Code(l, at + 1, nc), Code(r, at + 2 + Size(l), nc + Captures(l)))
        && Size(n) == 2 + Size(l) + Size(r) && Captures(n) == Captures(l) + Captures(r)
      case Quantifier(nmin, nmax, greedy, q) =>
        && Code(n, at, nc) == QuantifierCode(nmin, nmax, greedy, q, at, nc)
        && Size(n) == QuantifierSize(nmin, nmax, Size(q))
        && Captures(n) == (if nmin == 0 && nmax == 0 then 0 else Captures(q))
      case Capture(c) =>
        && Code(n, at, nc) == CaptureCode(nc, Code(c, at + 1, nc + 1))
        && Size(n) == 2 + Size(c) && Captures(n) == 1 + Captures(c)
      case _ => Captures(n) == 0
  {
    hide AlternationCode, QuantifierCode, CaptureCode, QuantifierSize, ClassBitsOf, ValidClassText;
  }

  lemma AlternationParts(before: seq<Instr>, at: nat, left: seq<Instr>, right: seq<Instr>)
    ensures before + AlternationCode(at, left, right) ==
            before + [OpSplit(at + 1, at + 2 + |left|)] + left + [OpJump(at + 2 + |left| + |right|)] + right
  {}

  /** The second spelling is the one in which the branch is patched. */
  lemma Regroup(before: seq<Instr>, blank: Instr, left: seq<Instr>, jump: Instr, right: seq<Instr>)
    ensures before + [blank] + left + [jump] + right == before + [blank] + (left + [jump] + right)
  {}

  lemma CopiesNone(q: Node, at: nat, nc: nat)
    requires Wf(q)
    ensures Copies(q, 0, at, nc) == []
  {}

  lemma CopiesStep(q: Node, c: nat, at: nat, nc: nat)
    requires Wf(q)
    ensures Copies(q, c + 1, at, nc) == Copies(q, c, at, nc) + Code(q, at + Times(c, Size(q)), nc)
  {}

  lemma OptionalsNone(q: Node, greedy: bool, at: nat, nc: nat)
    requires Wf(q)
    ensures Optionals(q, 0, greedy, at, nc) == []
  {}

  lemma OptionalsStep(q: Node, c: nat, greedy: bool, at: nat, nc: nat)
    requires Wf(q)
    ensures var split := at + Times(c, Size(q) + 1);
            Optionals(q, c + 1, greedy, at, nc) ==
            Optionals(q, c, greedy, at, nc) + OptionalCode(greedy, split, Code(q, split + 1, nc))
  {}

  lemma QuantifierCases(nmin: nat, nmax: int, greedy: bool, q: Node, at: nat, nc: nat)
    requires Wf(q) && (nmax == -1 || nmin <= nmax)
    ensures var end, copies := at + Times(nmin, Size(q)), Copies(q, nmin, at, nc);
            QuantifierCode(nmin, nmax, greedy, q, at, nc) ==
            if nmax > nmin then copies + Optionals(q, nmax - nmin, greedy, end, nc)
            else if nmax == nmin then copies
            else if nmin == 0 then LoopCode(greedy, at, Code(q, at + 1, nc))
            else copies + [Split(greedy, at + Times(nmin - 1, Size(q)), end + 1)]
    ensures nmin == 0 ==> Copies(q, nmin, at, nc) == []
  {}

  /** The compilation context: a program buffer, the next free instruction and the next capture number. */
  class CompileContext {
    const program: array<Instr>
    var pc: nat
    var ncaptures: nat

    constructor (program: array<Instr>)
      ensures this.program == program && pc == 0 && ncaptures == 0
    {
      this.program, pc, ncaptures := program, 0, 0;
    }

    method Emit(instruction: Instr) returns (at: nat)
      requires pc < program.Length
      modifies this`pc, program
      ensures at == old(pc) && pc == at + 1
      ensures program[..pc] == old(program[..pc]) + [instruction]
    {
      program[pc] := instruction;
      at := pc;
      pc := pc + 1;
    }

    /** Overwrites an instruction emitted earlier, whose targets are known only now. */
    method Patch(ghost front: seq<Instr>, at: nat, ghost blank: Instr, ghost rest: seq<Instr>, instruction: Instr)
      requires pc <= program.Length && at == |front| && program[..pc] == front + [blank] + rest
      modifies program
      ensures program[..pc] == front + [instruction] + rest
    {
      program[at] := instruction;
    }

    /** Appends the code of n at pc and returns the address it starts at. */
    method Compile(n: Node) returns (bottom: nat)
      requires Wf(n) && pc + Size(n) <= program.Length
      modifies this, program
      ensures bottom == old(pc) && pc == bottom + Size(n)
      ensures program[..pc] == old(program[..pc]) + Code(n, bottom, old(ncaptures))
      ensures ncaptures == old(ncaptures) + Captures(n)
      decreases n, 1
    {
      hide Code, Size, Captures, AlternationCode, QuantifierCode, CaptureCode, QuantifierSize;
      CompositeCases(n, pc, ncaptures);
      bottom := pc;
      match n
      case Concatenation(l, r) =>
        var _ := Compile(l);
        var _ := Compile(r);
      case Alternation(l, r) =>
        CompileAlternation(n, l, r);
      case Quantifier(nmin, nmax, greedy, q) =>
        CompileQuantifier(nmin, nmax, greedy, q);
      case Capture(c) =>
        CompileCapture(c);
      case _ =>
        CompileSimple(n);
    }

    method CompileSimple(n: Node)
      requires Wf(n) && pc + Size(n) <= program.Length
      requires !n.Concatenation? && !n.Alternation? && !n.Quantifier? && !n.Capture?
      modifies this, program
      ensures pc == old(pc) + Size(n) && ncaptures == old(ncaptures)
      ensures program[..pc] == old(program[..pc]) + Code(n, old(pc), old(ncaptures))
      decreases n, 0
    {
      hide ClassBitsOf, ValidClassText;
      match n
      case Epsilon =>
      case Character(ch) =>
        var _ := Emit(OpCharacter(ch));
      case AnyCharacter =>
        var _ := Emit(OpAnyCharacter);
      case CharacterClass(text) =>
        var klass := CompileCharClass(text);
        var _ := Emit(OpCharacterClass(klass));
      case CharacterClassNegated(text) =>
        var klass := CompileCharClass(text);
        var _ := Emit(OpCharacterClassNegated(klass));
      case AnchorBegin =>
        var _ := Emit(OpAssertBegin);
      case AnchorEnd =>
        var _ := Emit(OpAssertEnd);
    }

    method CompileCapture(c: Node)
      requires Wf(c) && pc + Size(c) + 2 <= program.Length
      modifies this, program
      ensures pc == old(pc) + Size(c) + 2
      ensures program[..pc] == old(program[..pc]) +
        CaptureCode(old(ncaptures), Code(c, old(pc) + 1, old(ncaptures) + 1))
      ensures ncaptures == old(ncaptures) + 1 + Captures(c)
      decreases c, 3
    {
      hide Code, Size, Captures;
      var capture := ncaptures * 2;
      ncaptures := ncaptures + 1;
      var _ := Emit(OpSave(capture));
      var _ := Compile(c);
      var _ := Emit(OpSave(capture + 1));
    }

    /** The branch and the jump are emitted blank and patched once their targets are known. */
    method CompileAlternation(ghost n: Node, l: Node, r: Node)
      requires n == Alternation(l, r) && Wf(l) && Wf(r) && pc + 2 + Size(l) + Size(r) <= program.Length
      modifies this, program
      ensures pc == old(pc) + 2 + Size(l) + Size(r)
      ensures program[..pc] == old(program[..pc]) + AlternationCode(old(pc),
                Code(l, old(pc) + 1, old(ncaptures)), Code(r, old(pc) + 2 + Size(l), old(ncaptures) + Captures(l)))
      ensures ncaptures == old(ncaptures) + Captures(l) + Captures(r)
      decreases n, 0
    {
      hide Code, Size, Captures, AlternationCode;
      ghost var before, nc := program[..pc], ncaptures;
      ghost var left := Code(l, pc + 1, nc);
      var split, first := CompileLeft(l);
      var jump := Emit(OpJump(0));
      var second := Compile(r);
      ghost var right := Code(r, second, nc + Captures(l));
      Regroup(before, OpSplit(first, 0), left, OpJump(0), right);
      Patch(before, split, OpSplit(first, 0), left + [OpJump(0)] + right, OpSplit(first, second));
      Regroup(before, OpSplit(first, second), left, OpJump(0), right);
      Patch(before + [OpSplit(first, second)] + left, jump, OpJump(0), right, OpJump(pc));
      AlternationParts(before, split, left, right);
    }

    /** The branch, its second target still open, and the left side. */
    method CompileLeft(l: Node) returns (split: nat, first: nat)
      requires Wf(l) && pc + 1 + Size(l) <= program.Length
      modifies this, program
      ensures split == old(pc) && first == split + 1 && pc == first + Size(l)
      ensures program[..pc] == old(program[..pc]) + [OpSplit(first, 0)] + Code(l, first, old(ncaptures))
      ensures ncaptures == old(ncaptures) + Captures(l)
      decreases l, 2
    {
      hide Code, Size, Captures;
      ghost var before, nc := program[..pc], ncaptures;
      split := Emit(OpSplit(0, 0));
      first := Compile(l);
      Patch(before, split, OpSplit(0, 0), Code(l, first, nc), OpSplit(first, 0));
    }

    method CompileCopies(nmin: nat, q: Node) returns (last: nat)
      requires Wf(q) && pc + Times(nmin, Size(q)) <= program.Length
      modifies this, program
      ensures pc == old(pc) + Times(nmin, Size(q))
      ensures program[..pc] == old(program[..pc]) + Copies(q, nmin, old(pc), old(ncaptures))
      ensures nmin != 0 ==> last == old(pc) + Times(nmin - 1, Size(q))
      ensures ncaptures == old(ncaptures) + (if nmin == 0 then 0 else Captures(q))
      decreases q, 2
    {
      hide Code, Size, Times, Copies, Captures;
      var captures := ncaptures;
      ghost var before, at, nc := program[..pc], pc, ncaptures;
      TimesNone(Size(q));
      CopiesNone(q, at, nc);
      last := 0;
      for i := 0 to nmin
        invariant pc == at + Times(i, Size(q)) <= program.Length
        invariant program[..pc] == before + Copies(q, i, at, nc)
        invariant i > 0 ==> last == at + Times(i - 1, Size(q))
        invariant ncaptures == nc + (if i == 0 then 0 else Captures(q))
      {
        TimesMonotone(i + 1, nmin, Size(q));
        TimesStep(i, Size(q));
        CopiesStep(q, i, at, nc);
        ncaptures := captures;
        last := Compile(q);
      }
    }

    method CompileOptional(greedy: bool, q: Node)
      requires Wf(q) && pc + Size(q) + 1 <= program.Length
      modifies this, program
      ensures pc == old(pc) + Size(q) + 1
      ensures program[..pc] == old(program[..pc]) + OptionalCode(greedy, old(pc), Code(q, old(pc) + 1, old(ncaptures)))
      ensures ncaptures == old(ncaptures) + Captures(q)
      decreases q, 2
    {
      hide Code, Size, Captures;
      ghost var before, nc := program[..pc], ncaptures;
      var split := Emit(OpSplit(0, 0));
      var first := Compile(q);
      Patch(before, split, OpSplit(0, 0), Code(q, first, nc), Split(greedy, first, pc));
      assert program[..pc] == before + OptionalCode(greedy, split, Code(q, first, nc));
    }

    method CompileOptionals(count: nat, greedy: bool, q: Node, captures: nat)
      requires Wf(q) && pc + Times(count, Size(q) + 1) <= program.Length
      modifies this, program
      ensures pc == old(pc) + Times(count, Size(q) + 1)
      ensures program[..pc] == old(program[..pc]) + Optionals(q, count, greedy, old(pc), captures)
      ensures ncaptures == if count == 0 then old(ncaptures) else captures + Captures(q)
      decreases q, 3
    {
      hide Code, Size, OptionalCode, Captures, Optionals, Times;
      ghost var before, at := program[..pc], pc;
      TimesNone(Size(q) + 1);
      OptionalsNone(q, greedy, at, captures);
      for i := 0 to count
        invariant pc == at + Times(i, Size(q) + 1) <= program.Length
        invariant program[..pc] == before + Optionals(q, i, greedy, at, captures)
        invariant ncaptures == if i == 0 then old(ncaptures) else captures + Captures(q)
      {
        TimesMonotone(i + 1, count, Size(q) + 1);
        TimesStep(i, Size(q) + 1);
        OptionalsStep(q, i, greedy, at, captures);
        ncaptures := captures;
        CompileOptional(greedy, q);
      }
    }

    method CompileLoop(greedy: bool, q: Node)
      requires Wf(q) && pc + Size(q) + 2 <= program.Length
      modifies this, program
      ensures pc == old(pc) + Size(q) + 2
      ensures program[..pc] == old(program[..pc]) + LoopCode(greedy, old(pc), Code(q, old(pc) + 1, old(ncaptures)))
      ensures ncaptures == old(ncaptures) + Captures(q)
      decreases q, 2
    {
      hide Code, Size, Captures;
      ghost var before, nc := program[..pc], ncaptures;
      var split := Emit(OpSplit(0, 0));
      var first := Compile(q);
      ghost var body := Code(q, first, nc);
      var jump := Emit(OpJump(0));
      Patch(before, split, OpSplit(0, 0), body + [OpJump(0)], Split(greedy, first, pc));
      Patch(before + [Split(greedy, first, pc)] + body, jump, OpJump(0), [], OpJump(split));
      assert program[..pc] == before + LoopCode(greedy, split, body);
    }

    /** The branch back to the last of the copies. */
    method CompileBack(greedy: bool, last: nat)
      requires pc < program.Length
      modifies this`pc, program
      ensures pc == old(pc) + 1
      ensures program[..pc] == old(program[..pc]) + [Split(greedy, last, pc)]
    {
      var split := Emit(OpSplit(0, 0));
      Patch(program[..split], split, OpSplit(0, 0), [], Split(greedy, last, pc));
    }

    method CompileQuantifier(nmin: nat, nmax: int, greedy: bool, q: Node)
      requires Wf(q) && (nmax == -1 || nmin <= nmax)
      requires pc + QuantifierSize(nmin, nmax, Size(q)) <= program.Length
      modifies this, program
      ensures pc == old(pc) + QuantifierSize(nmin, nmax, Size(q))
      ensures program[..pc] == old(program[..pc]) + QuantifierCode(nmin, nmax, greedy, q, old(pc), old(ncaptures))
      ensures ncaptures == old(ncaptures) + (if nmin == 0 && nmax == 0 then 0 else Captures(q))
      decreases q, 4
    {
      hide Code, Size, Captures, LoopCode, QuantifierCode, Copies, Optionals, Split, Times;
      TimesNone(Size(q));
      var captures := ncaptures;
      ghost var before, at, nc := program[..pc], pc, ncaptures;
      QuantifierCases(nmin, nmax, greedy, q, at, nc);
      var last := CompileCopies(nmin, q);
      ghost var copies := Copies(q, nmin, at, nc);
      if nmax > nmin {
        ghost var options := Optionals(q, nmax - nmin, greedy, pc, nc);
        CompileOptionals(nmax - nmin, greedy, q, captures);
        assert program[..pc] == before + (copies + options);
      } else if nmax == -1 {
        if nmin == 0 {
          CompileLoop(greedy, q);
        } else {
          CompileBack(greedy, last);
          assert program[..pc] == before + (copies + [Split(greedy, last, pc)]);
        }
      }
    }
  }

  /** Compiles a parsed pattern into a program of exactly the estimated number of instructions. */
  method CompileNode(root: Node) returns (program: array<Instr>)
    requires Wf(root)
    ensures fresh(program) && program.Length == EstimateInstructions(root)
    ensures program[..] == Compiled(root)
  {
    CompiledSize(root);
    program := new Instr[EstimateInstructions(root)](_ => OpMatch);
    var context := new CompileContext(program);
    var _ := context.Compile(WholePattern(root));
    var _ := context.Emit(OpMatch);
    assert program[..] == program[..context.pc];
  }
}
