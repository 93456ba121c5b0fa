/** Properties of the functional CPU of emulator2.cpp that relate several
    cycles: the timer across a run, the interrupt flag's bookkeeping, the
    level-triggered disk port, and the demonstration program. */
module CpuProperties {
  import opened Isa
  import opened CpuSpec

  /** Polling the ports twice in a row does what polling once does: the
      command that stays in the command port repeats its transfer with the
      same value. */
  lemma IoPortsIdempotent(s: State)
    requires Wf(s)
    ensures HandleIoPorts(HandleIoPorts(s)) == HandleIoPorts(s)
  {
    var p := HandleIoPorts(s);
    assert p.memory[DISK_COMMAND_PORT] == s.memory[DISK_COMMAND_PORT];
    assert p.memory[KEYBOARD_PORT] == s.memory[KEYBOARD_PORT];
  }

  /** The command port is never cleared: a disk command executed in one
      cycle is found again, and executed again, by the next cycle. */
  lemma DiskCommandRepeats(s: State)
    requires Wf(s)
    ensures Cycle(s).0.memory[DISK_COMMAND_PORT] == s.memory[DISK_COMMAND_PORT]
    ensures s.memory[DISK_COMMAND_PORT] == CMD_READ ==>
      HandleIoPorts(Cycle(s).0).memory[DISK_DATA_PORT] == Cycle(s).0.disk[s.sector]
    ensures s.memory[DISK_COMMAND_PORT] == CMD_WRITE ==>
      HandleIoPorts(Cycle(s).0).disk[s.sector] == Cycle(s).0.memory[DISK_DATA_PORT]
  {
  }

  /** No instruction stores to memory: across any run, the only memory word
      that can change is the disk data port. */
  lemma {:induction false} RunWritesOnlyDataPort(s: State, fuel: nat)
    requires Wf(s)
    ensures forall a :: 0 <= a < MEMORY_WORDS && a != DISK_DATA_PORT ==>
      Run(s, fuel).0.memory[a] == s.memory[a]
    decreases fuel
  {
    if fuel > 0 {
      var (next, ok) := Cycle(s);
      if ok {
        RunWritesOnlyDataPort(next, fuel - 1);
      }
    }
  }

  /** Over a run in which every instruction succeeded, the timer has ticked
      once per instruction, and so has counted exactly the `fuel`
      instructions, modulo the reload value. */
  lemma {:induction false} RunCountsInstructions(s: State, fuel: nat)
    requires Wf(s)
    ensures Run(s, fuel).1 ==> Run(s, fuel).0.timer == TickN(s.timer, fuel)
    ensures Run(s, fuel).1 ==> Run(s, fuel).0.timer == (s.timer + fuel) % TIMER_RELOAD
    decreases fuel
  {
    TickNCounts(s.timer, fuel);
    if fuel > 0 {
      var (next, ok) := Cycle(s);
      if ok {
        RunCountsInstructions(next, fuel - 1);
      }
    }
  }

  /** How many of the first `fuel` cycles found the interrupt flag set and
      serviced it (the cycles up to and including a halting one). */
  function Serviced(s: State, fuel: nat): nat
    requires Wf(s)
    decreases fuel
  {
    if fuel == 0 then 0
    else
      var (next, ok) := Cycle(s);
      (if s.interrupt then 1 else 0) + (if ok then Serviced(next, fuel - 1) else 0)
  }

  /** The interrupt bookkeeping of a run without a halt: every interrupt the
      timer raises is either serviced by a later cycle or still pending at the
      end, and so is one pending at the start. With the cadence lemma this
      gives one serviced interrupt per 8000 instructions. */
  lemma {:induction false} InterruptsAreServiced(s: State, fuel: nat)
    requires Wf(s)
    ensures Run(s, fuel).1 ==>
      Serviced(s, fuel) + (if Run(s, fuel).0.interrupt then 1 else 0)
        == (if s.interrupt then 1 else 0) + Interrupts(s.timer, fuel)
    decreases fuel
  {
    if fuel > 0 {
      var (next, ok) := Cycle(s);
      if ok {
        InterruptsAreServiced(next, fuel - 1);
        assert next.timer == Tick(s.timer).0;
        assert next.interrupt == Tick(s.timer).1;
      }
    }
  }

  /** The interrupt cadence on the machine: with nothing pending and the
      timer at `t`, the next `8000 - t` successful instructions (all 8000 of
      them from a fresh timer) raise the interrupt exactly once, at the last
      of them, and none of those cycles services an interrupt. */
  lemma InterruptAfterReload(s: State, fuel: nat)
    requires Wf(s) && !s.interrupt && s.timer + fuel == TIMER_RELOAD
    requires Run(s, fuel).1
    ensures Run(s, fuel).0.interrupt
    ensures Run(s, fuel).0.timer == 0
    ensures Serviced(s, fuel) == 0
  {
    InterruptsAreServiced(s, fuel);
    RunCountsInstructions(s, fuel);
    InterruptCadence(s.timer, fuel);
    ServicedNeedsRaised(s, fuel);
  }

  /** With nothing pending and a timer at `t`, no interrupt is serviced
      within the first `8000 - t` cycles. */
  lemma {:induction false} ServicedNeedsRaised(s: State, fuel: nat)
    requires Wf(s) && !s.interrupt && s.timer + fuel <= TIMER_RELOAD
    ensures Serviced(s, fuel) == 0
    decreases fuel
  {
    if fuel > 0 {
      var (next, ok) := Cycle(s);
      if ok && fuel > 1 {
        assert !next.interrupt;
        ServicedNeedsRaised(next, fuel - 1);
      }
    }
  }

  /** `LOD r, addr` followed by `ADD r, r` doubles the loaded word, modulo
      2^16. */
  lemma LodThenAddDoubles(s: State, lod: Word, add: Word)
    requires Wf(s)
    requires OpOf(lod) == OP_LOD && OpOf(add) == OP_ADD
    requires RegA(add) == RegA(lod) && RegB(add) == RegA(lod)
    ensures ExecuteInstruction(ExecuteInstruction(s, lod).0, add).1
    ensures ExecuteInstruction(ExecuteInstruction(s, lod).0, add).0.registers[RegA(lod)]
      == (2 * s.memory[Addr8(lod)] as int) % 0x1_0000
  {
  }

  /** A jump cycle leaves the program counter at the 12-bit target, so the
      next fetch reads the word there. */
  lemma JumpTargetsNextFetch(s: State)
    requires Wf(s) && OpOf(NextInstruction(s)) == OP_JMP
    ensures Cycle(s).1
    ensures Cycle(s).0.pc == Addr12(NextInstruction(s)) && Cycle(s).0.pc < 0x1000
    ensures Cycle(s).0.registers == s.registers
  {
  }

  /** The test program `{0x100A, 0x2001, 0xF000}` with `v` at address 10:
      LOD R0, 10 then ADD R0, R0 leave twice `v` (mod 2^16) in R0, and the
      third word halts the machine without touching the registers or the
      timer. */
  lemma TestProgram(s: State, v: Word)
    requires Wf(s) && s.pc == 0
    requires s.memory[0] == 0x100A && s.memory[1] == 0x2001 && s.memory[2] == 0xF000
    requires s.memory[10] == v
    ensures var (s1, c1) := Cycle(s);
            var (s2, c2) := Cycle(s1);
            var (s3, c3) := Cycle(s2);
            c1 && c2 && !c3 &&
            s1.registers[0] == v &&
            s2.registers[0] == (2 * v) % 0x1_0000 &&
            s3.registers == s2.registers && s3.timer == s2.timer && s3.pc == 3
  {
    var (s1, c1) := Cycle(s);
    assert NextInstruction(s) == 0x100A;
    assert s1.memory[1] == 0x2001 && s1.memory[10] == v;
    var (s2, c2) := Cycle(s1);
    assert NextInstruction(s1) == 0x2001;
    assert s2.memory[2] == 0xF000;
    assert NextInstruction(s2) == 0xF000;
  }
}
