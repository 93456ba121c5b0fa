/** The machine word, the instruction encoding and the cycle timer shared by
    both emulators: a 16-bit word (`uint16_t` in the source), the four-bit
    opcode in the high nibble, the operand fields below it, and the timer that
    reloads at 8000. */
module Isa {

  const MEMORY_WORDS: nat := 65536
  const REGISTER_COUNT: nat := 16
  const VIDEO_WORDS: nat := 8192
  const SECTOR_WORDS: nat := 1024
  const SECTOR_COUNT: nat := 10
  const DISK_WORDS: nat := 10240
  const TIMER_RELOAD: nat := 8000

  /** Opcodes, as selected by `instruction & 0xF000`. */
  const OP_LOD: nat := 0x1
  const OP_ADD: nat := 0x2
  const OP_JMP: nat := 0x4
  const OP_HALT: nat := 0xF

  /** A machine word: the values of a `uint16_t`. */
  type Word = x: int | 0 <= x < 0x1_0000

  /** The high nibble, bits 15-12 (the switch on `instruction & 0xF000`). */
  function OpOf(i: Word): (op: nat)
    ensures op < 16
  {
    i / 0x1000
  }

  /** True for the three opcodes that have a handler; HALT and every other
      nibble stop the machine. */
  predicate HasHandler(i: Word)
  {
    OpOf(i) == OP_LOD || OpOf(i) == OP_ADD || OpOf(i) == OP_JMP
  }

  /** The first register field, bits 11-8 (`(i >> 8) & 0x0F`). */
  function RegA(i: Word): (r: nat)
    ensures r < REGISTER_COUNT
  {
    (i / 0x100) % 0x10
  }

  /** The second register field, bits 7-4 (`(i >> 4) & 0x0F`). */
  function RegB(i: Word): (r: nat)
    ensures r < REGISTER_COUNT
  {
    (i / 0x10) % 0x10
  }

  /** The LOD address field, bits 7-0 (`i & 0x00FF`). */
  function Addr8(i: Word): (a: nat)
    ensures a < 0x100
  {
    i % 0x100
  }

  /** The JMP address field, bits 11-0 (`i & 0x0FFF`). */
  function Addr12(i: Word): (a: nat)
    ensures a < 0x1000
  {
    i % 0x1000
  }

  /** `a + b` on `uint16_t`: the sum wraps around past 0xFFFF. */
  function AddWords(a: Word, b: Word): (r: Word)
    ensures a + b < 0x1_0000 ==> r == a + b
    ensures a + b >= 0x1_0000 ==> r == a + b - 0x1_0000
  {
    (a + b) % 0x1_0000
  }

  /** `x++` on `uint16_t`: 0xFFFF is followed by 0. */
  function Succ(x: Word): (r: Word)
    ensures x < 0xFFFF ==> r == x + 1
    ensures x == 0xFFFF ==> r == 0
  {
    (x + 1) % 0x1_0000
  }

  /** One successful instruction's worth of timer: `timer++`, and on reaching
      8000 the interrupt is raised and the timer reloads with 0. Returns the
      new timer and whether the interrupt was raised. */
  function Tick(timer: nat): (r: (nat, bool))
    requires timer < TIMER_RELOAD
    ensures r.0 < TIMER_RELOAD
    ensures r.0 == (timer + 1) % TIMER_RELOAD
    ensures r.1 <==> r.0 == 0
  {
    var t := timer + 1;
    if t >= TIMER_RELOAD then (0, true) else (t, false)
  }

  /** The timer after `n` successful instructions. */
  function TickN(timer: nat, n: nat): (t: nat)
    requires timer < TIMER_RELOAD
    ensures t < TIMER_RELOAD
    decreases n
  {
    if n == 0 then timer else TickN(Tick(timer).0, n - 1)
  }

  /** How many interrupts `n` successful instructions raise. */
  function Interrupts(timer: nat, n: nat): nat
    requires timer < TIMER_RELOAD
    decreases n
  {
    if n == 0 then 0
    else (if Tick(timer).1 then 1 else 0) + Interrupts(Tick(timer).0, n - 1)
  }

  /** The timer counts successful instructions modulo the reload value. */
  lemma {:induction false} TickNCounts(timer: nat, n: nat)
    requires timer < TIMER_RELOAD
    ensures TickN(timer, n) == (timer + n) % TIMER_RELOAD
    decreases n
  {
    if n > 0 {
      TickNCounts(Tick(timer).0, n - 1);
    }
  }

  /** The interrupt cadence: from timer value `timer`, `n` successful
      instructions raise exactly `(timer + n) / 8000` interrupts; in
      particular 8000 instructions from a fresh timer raise exactly one. */
  lemma {:induction false} InterruptCadence(timer: nat, n: nat)
    requires timer < TIMER_RELOAD
    ensures Interrupts(timer, n) == (timer + n) / TIMER_RELOAD
    decreases n
  {
    if n > 0 {
      InterruptCadence(Tick(timer).0, n - 1);
    }
  }

  lemma OneInterruptPer8000()
    ensures Interrupts(0, TIMER_RELOAD) == 1
    ensures TickN(0, TIMER_RELOAD) == 0
    ensures forall n :: 0 <= n < TIMER_RELOAD ==> Interrupts(0, n) == 0
  {
    InterruptCadence(0, TIMER_RELOAD);
    TickNCounts(0, TIMER_RELOAD);
    forall n | 0 <= n < TIMER_RELOAD
      ensures Interrupts(0, n) == 0
    {
      InterruptCadence(0, n);
    }
  }

  /** Decoding loses nothing: the word is its opcode, register fields and
      low nibble put back together. */
  lemma FieldsReassemble(i: Word)
    ensures i == OpOf(i) * 0x1000 + Addr12(i)
    ensures Addr12(i) == RegA(i) * 0x100 + Addr8(i)
    ensures Addr8(i) == RegB(i) * 0x10 + i % 0x10
  {
  }
}
