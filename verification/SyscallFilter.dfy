/**
 * The compiler from a set of denied system calls to a classic BPF program
 * (src/mos_eisley/_git_read_linux.py, lines 86 to 115), and an interpreter for the
 * four instructions it emits.
 */
module SyscallFilter {
  import opened Prelude

  const WORD := 0x1_0000_0000
  const HALF := 0x1_0000

  /** code, jt, jf and k of one instruction, in the widths of the C structure. */
  datatype Instruction = Instruction(code: nat, jt: nat, jf: nat, k: nat)

  const LOAD := 0x20
  const JUMP_EQUAL := 0x15
  const JUMP_AT_LEAST := 0x35
  const RETURN := 0x06

  const KILL := 0x8000_0000
  const DENY := 0x0005_0001
  const ALLOW := 0x7FFF_0000
  const X32_BIT := 0x4000_0000

  datatype Machine = X86 | Aarch64

  function AuditArch(m: Machine): nat {
    if m == X86 then 0xC000_003E else 0xC000_00B7
  }

  const X86_DENIED := [41, 42, 43, 44, 45, 46, 47, 49, 50, 53, 56, 57, 58, 288, 299, 307, 322, 425, 426, 427, 435]
  const AARCH64_DENIED :=
    [198, 199, 200, 201, 202, 203, 206, 207, 211, 212, 220, 242, 243, 269, 281, 425, 426, 427, 435]

  /** A c_uint field keeps the low 32 bits of whatever it is given. */
  function Low32(n: int): (k: nat)
    ensures k < WORD
  {
    n % WORD
  }

  // -------------------------------------------------------------------------
  // The compiler
  // -------------------------------------------------------------------------

  function Prologue(m: Machine): seq<Instruction> {
    [Instruction(LOAD, 0, 0, 4), Instruction(JUMP_EQUAL, 1, 0, AuditArch(m)), Instruction(RETURN, 0, 0, KILL),
     Instruction(LOAD, 0, 0, 0)]
    + if m == X86 then [Instruction(JUMP_AT_LEAST, 0, 1, X32_BIT), Instruction(RETURN, 0, 0, KILL)] else []
  }

  function Denial(number: int): seq<Instruction> {
    [Instruction(JUMP_EQUAL, 0, 1, Low32(number)), Instruction(RETURN, 0, 0, DENY)]
  }

  function Denials(numbers: seq<int>): (p: seq<Instruction>)
    ensures |p| == 2 * |numbers|
  {
    if numbers == [] then [] else Denial(numbers[0]) + Denials(numbers[1..])
  }

  function Compiled(m: Machine, numbers: seq<int>): seq<Instruction> {
    Prologue(m) + Denials(numbers) + [Instruction(RETURN, 0, 0, ALLOW)]
  }

  lemma {:induction false} DenialsSnoc(numbers: seq<int>, n: int)
    ensures Denials(numbers + [n]) == Denials(numbers) + Denial(n)
  {
    if numbers == [] {
      assert numbers + [n] == [n] && Denials([n][1..]) == [];
    } else {
      assert (numbers + [n])[1..] == numbers[1..] + [n];
      DenialsSnoc(numbers[1..], n);
    }
  }

  /** _confine, up to the finished instruction list. */
  method BuildFilter(m: Machine, numbers: seq<int>) returns (instructions: seq<Instruction>)
    ensures instructions == Compiled(m, numbers)
  {
    instructions :=
      [Instruction(LOAD, 0, 0, 4), Instruction(JUMP_EQUAL, 1, 0, AuditArch(m)), Instruction(RETURN, 0, 0, KILL),
       Instruction(LOAD, 0, 0, 0)];
    if m == X86 {
      instructions := instructions + [Instruction(JUMP_AT_LEAST, 0, 1, X32_BIT), Instruction(RETURN, 0, 0, KILL)];
    }
    for i := 0 to |numbers|
      invariant instructions == Prologue(m) + Denials(numbers[..i])
    {
      assert numbers[..i + 1] == numbers[..i] + [numbers[i]];
      DenialsSnoc(numbers[..i], numbers[i]);
      instructions := instructions
        + [Instruction(JUMP_EQUAL, 0, 1, Low32(numbers[i])), Instruction(RETURN, 0, 0, DENY)];
    }
    assert numbers[..|numbers|] == numbers;
    instructions := instructions + [Instruction(RETURN, 0, 0, ALLOW)];
  }

  // -------------------------------------------------------------------------
  // The interpreter
  // -------------------------------------------------------------------------

  /** A call, as the filter sees it: words 0 and 4 of its data. */
  datatype Call = Call(nr: nat, arch: nat)

  function Word(c: Call, offset: nat): Option<nat> {
    if offset == 0 then Some(c.nr) else if offset == 4 then Some(c.arch) else None
  }

  /** The verdict, or None when the counter leaves the program or an instruction is unknown. */
  function Execute(p: seq<Instruction>, c: Call, pc: nat, a: nat): Option<nat>
    decreases |p| - pc
  {
    if pc >= |p| then None
    else
      var i := p[pc];
      if i.code == RETURN then Some(i.k)
      else if i.code == LOAD then
        var w :- Word(c, i.k);
        Execute(p, c, pc + 1, w)
      else if i.code == JUMP_EQUAL then Execute(p, c, pc + 1 + if a == i.k then i.jt else i.jf, a)
      else if i.code == JUMP_AT_LEAST then Execute(p, c, pc + 1 + if a >= i.k then i.jt else i.jf, a)
      else None
  }

  /** The decision the filter is for. */
  function Decision(m: Machine, numbers: seq<int>, c: Call): nat {
    if c.arch != AuditArch(m) then KILL
    else if m == X86 && c.nr >= X32_BIT then KILL
    else if exists n | n in numbers :: Low32(n) == c.nr then DENY
    else ALLOW
  }

  // -------------------------------------------------------------------------
  // Correctness
  // -------------------------------------------------------------------------

  /** From a position where the rest of the denials follows, with the call number loaded. */
  lemma {:induction false} DenialsExecute(p: seq<Instruction>, c: Call, pc: nat, numbers: seq<int>)
    requires pc + 2 * |numbers| < |p| && p[pc..pc + 2 * |numbers|] == Denials(numbers)
    requires p[pc + 2 * |numbers|] == Instruction(RETURN, 0, 0, ALLOW)
    ensures Execute(p, c, pc, c.nr) == Some(if exists n | n in numbers :: Low32(n) == c.nr then DENY else ALLOW)
    decreases |numbers|
  {
    if numbers != [] {
      var rest := p[pc..pc + 2 * |numbers|];
      assert rest[0] == p[pc] && rest[1] == p[pc + 1];
      assert rest[..2] == Denial(numbers[0]) && rest[2..] == Denials(numbers[1..]);
      if Low32(numbers[0]) == c.nr {
        assert numbers[0] in numbers;
      } else {
        assert p[pc + 2..pc + 2 + 2 * |numbers[1..]|] == rest[2..];
        DenialsExecute(p, c, pc + 2, numbers[1..]);
        assert forall n :: n in numbers <==> n == numbers[0] || n in numbers[1..];
      }
    }
  }

  lemma PrologueExecutes(m: Machine, numbers: seq<int>, c: Call)
    ensures var p := Compiled(m, numbers);
            Execute(p, c, 0, 0)
            == if c.arch != AuditArch(m) || (m == X86 && c.nr >= X32_BIT) then Some(KILL)
               else Execute(p, c, |Prologue(m)|, c.nr)
  {
    hide Denials;
    var p := Compiled(m, numbers);
    assert p[..4] == Prologue(m)[..4];
    assert p[0] == Instruction(LOAD, 0, 0, 4) && p[1] == Instruction(JUMP_EQUAL, 1, 0, AuditArch(m));
    assert p[2] == Instruction(RETURN, 0, 0, KILL) && p[3] == Instruction(LOAD, 0, 0, 0);
    assert Execute(p, c, 0, 0) == Execute(p, c, 1, c.arch);
    if c.arch == AuditArch(m) {
      assert Execute(p, c, 0, 0) == Execute(p, c, 3, c.arch) == Execute(p, c, 4, c.nr);
      if m == X86 {
        assert p[4] == Instruction(JUMP_AT_LEAST, 0, 1, X32_BIT) && p[5] == Instruction(RETURN, 0, 0, KILL);
        assert Execute(p, c, 5, c.nr) == Some(KILL);
        assert Execute(p, c, 4, c.nr) == Execute(p, c, if c.nr >= X32_BIT then 5 else 6, c.nr);
      }
    } else {
      assert Execute(p, c, 2, c.arch) == Some(KILL);
    }
  }

  /** Compiler correctness: for every call the program halts in bounds with exactly the intended verdict. */
  lemma CompilerCorrect(m: Machine, numbers: seq<int>, c: Call)
    ensures Execute(Compiled(m, numbers), c, 0, 0) == Some(Decision(m, numbers, c))
  {
    hide Execute, Denials;
    var p, start := Compiled(m, numbers), |Prologue(m)|;
    PrologueExecutes(m, numbers, c);
    assert p[start..start + 2 * |numbers|] == Denials(numbers);
    DenialsExecute(p, c, start, numbers);
  }

  // -------------------------------------------------------------------------
  // The two tables
  // -------------------------------------------------------------------------

  /** The program that the length field names: sixteen bits hold the length of any program shorter than 65536. */
  function Loaded(p: seq<Instruction>): seq<Instruction> {
    p[..|p| % HALF]
  }

  lemma DeniedExactly(numbers: seq<int>, denied: set<int>, nr: nat)
    requires forall n :: n in numbers <==> n in denied
    requires forall n | n in denied :: 0 <= n < WORD
    ensures (exists n | n in numbers :: Low32(n) == nr) <==> nr in denied
  {
    if nr in denied {
      assert Low32(nr) == nr;
    }
  }

  function Listed(m: Machine): seq<int> {
    if m == X86 then X86_DENIED else AARCH64_DENIED
  }

  function Table(m: Machine): set<int> {
    set n | n in Listed(m)
  }

  ghost predicate Ascending(numbers: seq<int>) {
    forall i, j | 0 <= i < j < |numbers| :: numbers[i] < numbers[j]
  }

  lemma ListedAscending(m: Machine)
    ensures Ascending(Listed(m))
    ensures Listed(m) != [] && 0 <= Listed(m)[0] && Listed(m)[|Listed(m)| - 1] < WORD
  {
  }

  lemma TableSmall(m: Machine)
    ensures forall n | n in Table(m) :: 0 <= n < WORD
  {
    hide Listed;
    ListedAscending(m);
    forall n | n in Table(m) ensures 0 <= n < WORD {
      var i :| 0 <= i < |Listed(m)| && Listed(m)[i] == n;
    }
  }

  lemma {:induction false} AscendingLength(numbers: seq<int>, all: set<int>)
    requires Ascending(numbers) && forall n :: n in numbers <==> n in all
    ensures |numbers| == |all|
    decreases |numbers|
  {
    if numbers == [] {
      assert forall n | n in all :: n in numbers;
      assert all == {};
    } else {
      var init, last := numbers[..|numbers| - 1], numbers[|numbers| - 1];
      assert numbers == init + [last];
      AscendingLength(init, all - {last});
    }
  }

  lemma TableSize(m: Machine)
    ensures |Table(m)| == |Listed(m)|
  {
    hide Listed;
    ListedAscending(m);
    AscendingLength(Listed(m), Table(m));
  }

  /** The tables by their numbers: twenty-one calls and nineteen. */
  lemma TablesExactly()
    ensures Listed(X86) == [41, 42, 43, 44, 45, 46, 47] + [49, 50, 53] + [56, 57, 58] + [288, 299, 307, 322]
                           + [425, 426, 427, 435]
    ensures Listed(Aarch64) == [198, 199, 200, 201, 202, 203] + [206, 207, 211, 212, 220] + [242, 243, 269, 281]
                               + [425, 426, 427, 435]
  {
  }

  /**
   * The two tables of the source, in ascending order, compile to programs of 49 and
   * 43 instructions, whose length the length field holds. They kill calls of another
   * architecture and x32 calls, refuse exactly the calls of the table with error
   * number 1, and allow the rest.
   */
  lemma SourceTablesFit(m: Machine, numbers: seq<int>, c: Call)
    requires Ascending(numbers) && forall n :: n in numbers <==> n in Table(m)
    ensures |Compiled(m, numbers)| == if m == X86 then 49 else 43
    ensures Loaded(Compiled(m, numbers)) == Compiled(m, numbers)
    ensures Execute(Compiled(m, numbers), c, 0, 0)
            == Some(if c.arch != (if m == X86 then 0xC000003E else 0xC00000B7) then 0x80000000
                    else if m == X86 && c.nr >= 0x40000000 then 0x80000000
                    else if c.nr in Table(m) then 0x00050000 + 1 else 0x7FFF0000)
  {
    hide Execute, Denials, Table;
    AscendingLength(numbers, Table(m));
    TableSize(m);
    CompilerCorrect(m, numbers, c);
    TableSmall(m);
    DeniedExactly(numbers, Table(m), c.nr);
  }
}
