/** The `Emulator` class of emulator2.cpp: memory, disk and register file are
    arrays updated in place, the program counter, timer, interrupt flag and
    keyboard latch are fields. Every method is proved to have the effect of
    its counterpart in CpuSpec on the abstract `State()`. */
module Cpu {
  import opened Isa
  import CpuSpec
  import CpuProperties

  class Emulator {
    var memory: array<Word>
    var disk: array<Word>
    var registers: array<Word>
    var interruptFlag: bool
    var timer: nat
    var sector: nat
    var programCounter: Word
    var keyboardInput: Word

    /** The object invariant: sizes as the constructor allocates them,
        three distinct arrays, and the timer below its reload value. */
    ghost predicate Valid()
      reads this
    {
      memory.Length == MEMORY_WORDS && registers.Length == REGISTER_COUNT &&
      disk.Length == DISK_WORDS && sector < disk.Length && timer < TIMER_RELOAD &&
      memory != disk && memory != registers && disk != registers
    }

    /** The abstract value of the machine. */
    ghost function State(): (s: CpuSpec.State)
      reads this, memory, disk, registers
      requires Valid()
      ensures CpuSpec.Wf(s)
    {
      CpuSpec.State(memory[..], registers[..], disk[..], programCounter, timer,
                    interruptFlag, sector, keyboardInput)
    }

    /** Zeroed memory, disk and registers, program counter and timer at 0,
        no interrupt pending, sector 0. The keyboard latch is left
        uninitialised, as in the source. */
    constructor ()
      ensures Valid() && fresh(memory) && fresh(disk) && fresh(registers)
      ensures State() == CpuSpec.Initial(keyboardInput)
    {
      memory := new Word[MEMORY_WORDS](_ => 0);
      disk := new Word[DISK_WORDS](_ => 0);
      registers := new Word[REGISTER_COUNT](_ => 0);
      interruptFlag := false;
      timer := 0;
      sector := 0;
      programCounter := 0;
    }

    /** `handle_io_ports`. */
    method HandleIoPorts()
      requires Valid()
      modifies this`keyboardInput, memory, disk
      ensures Valid()
      ensures State() == CpuSpec.HandleIoPorts(old(State()))
    {
      if memory[CpuSpec.KEYBOARD_PORT] != 0 {
        keyboardInput := memory[CpuSpec.KEYBOARD_PORT];
      }
      if memory[CpuSpec.DISK_COMMAND_PORT] == CpuSpec.CMD_READ {
        memory[CpuSpec.DISK_DATA_PORT] := disk[sector];
      } else if memory[CpuSpec.DISK_COMMAND_PORT] == CpuSpec.CMD_WRITE {
        disk[sector] := memory[CpuSpec.DISK_DATA_PORT];
      }
    }

    /** `fetch_instruction`: `memory[program_counter++]`. */
    method FetchInstruction() returns (instruction: Word)
      requires Valid()
      modifies this`programCounter
      ensures Valid()
      ensures (State(), instruction) == CpuSpec.Fetch(old(State()))
    {
      instruction := memory[programCounter];
      programCounter := Succ(programCounter);
    }

    /** `execute_lod`. */
    method ExecuteLod(instruction: Word) returns (ok: bool)
      requires Valid()
      modifies registers
      ensures Valid()
      ensures (State(), ok) == CpuSpec.ExecuteLod(old(State()), instruction)
    {
      var reg := RegA(instruction);
      var addr := Addr8(instruction);
      registers[reg] := memory[addr];
      ok := true;
    }

    /** `execute_add`, with the source's register-index guard. */
    method ExecuteAdd(instruction: Word) returns (ok: bool)
      requires Valid()
      modifies registers
      ensures Valid()
      ensures (State(), ok) == CpuSpec.ExecuteAdd(old(State()), instruction)
    {
      var reg1 := RegA(instruction);
      var reg2 := RegB(instruction);
      if reg1 >= REGISTER_COUNT || reg2 >= REGISTER_COUNT {
        return false;
      }
      registers[reg1] := AddWords(registers[reg1], registers[reg2]);
      ok := true;
    }

    /** `execute_jmp`. */
    method ExecuteJmp(instruction: Word) returns (ok: bool)
      requires Valid()
      modifies this`programCounter
      ensures Valid()
      ensures (State(), ok) == CpuSpec.ExecuteJmp(old(State()), instruction)
    {
      programCounter := Addr12(instruction);
      ok := true;
    }

    /** `execute_instruction`: the switch on the high nibble. */
    method ExecuteInstruction(instruction: Word) returns (ok: bool)
      requires Valid()
      modifies registers, this`programCounter
      ensures Valid()
      ensures (State(), ok) == CpuSpec.ExecuteInstruction(old(State()), instruction)
    {
      var op := OpOf(instruction);
      if op == OP_LOD {
        ok := ExecuteLod(instruction);
      } else if op == OP_ADD {
        ok := ExecuteAdd(instruction);
      } else if op == OP_JMP {
        ok := ExecuteJmp(instruction);
      } else {
        // OP_HALT ends the program; any other nibble is an unknown instruction.
        ok := false;
      }
    }

    /** One pass of the body of `execute`'s loop; false where it breaks. */
    method Step() returns (continues: bool)
      requires Valid()
      modifies this, memory, disk, registers
      ensures Valid()
      ensures memory == old(memory) && disk == old(disk) && registers == old(registers)
      ensures (State(), continues) == CpuSpec.Cycle(old(State()))
    {
      HandleIoPorts();
      if interruptFlag {
        interruptFlag := false;
      }
      var instruction := FetchInstruction();
      continues := ExecuteInstruction(instruction);
      if !continues {
        return;
      }
      timer := timer + 1;
      if timer >= TIMER_RELOAD {
        interruptFlag := true;
        timer := 0;
      }
    }

    /** `execute`'s loop, cut off after `fuel` cycles; `halted` tells whether
        it broke out on an instruction before then. */
    method Execute(fuel: nat) returns (halted: bool)
      requires Valid()
      modifies this, memory, disk, registers
      ensures Valid()
      ensures memory == old(memory) && disk == old(disk) && registers == old(registers)
      ensures (State(), !halted) == CpuSpec.Run(old(State()), fuel)
    {
      halted := false;
      var done := 0;
      while done < fuel && !halted
        invariant Valid() && done <= fuel
        invariant memory == old(memory) && disk == old(disk) && registers == old(registers)
        invariant CpuSpec.Run(old(State()), fuel) ==
          if halted then (State(), false) else CpuSpec.Run(State(), fuel - done)
        decreases fuel - done
      {
        var continues := Step();
        halted := !continues;
        done := done + 1;
      }
    }
  }

  /** The program that `generate_test_files` writes, `{0x100A, 0x2001,
      0xF000}`, stored directly into a fresh machine with `v` at address 10
      and executed: it doubles `v` into R0 and halts on the third
      instruction. */
  method RunTestProgram(v: Word) returns (r0: Word, halted: bool, pc: Word)
    ensures r0 == (2 * v) % 0x1_0000
    ensures halted && pc == 3
  {
    var emulator := new Emulator();
    emulator.memory[0] := 0x100A;
    emulator.memory[1] := 0x2001;
    emulator.memory[2] := 0xF000;
    emulator.memory[10] := v;
    ghost var start := emulator.State();
    CpuProperties.TestProgram(start, v);
    halted := emulator.Execute(3);
    r0 := emulator.registers[0];
    pc := emulator.programCounter;
  }
}
