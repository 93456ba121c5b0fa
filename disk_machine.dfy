/** The `Emulator` class of emulator.cpp: memory, video memory and disk are
    arrays updated in place (the sector transfers copy word by word, as
    `std::copy` does), and the function-local statics `program_counter` and
    `simulated_key` are fields. Every method is proved to have the effect of
    its counterpart in DiskSpec on the abstract `State()`. */
module DiskMachine {
  import opened Isa
  import DiskSpec
  import DiskProperties

  class Emulator {
    var memory: array<Word>
    var videoMemory: array<Word>
    var disk: array<Word>
    var interruptFlag: bool
    var timer: nat
    var diskCommand: Word
    var sector: Word
    var programCounter: Word
    var simulatedKey: Word

    ghost predicate Valid()
      reads this
    {
      memory.Length == MEMORY_WORDS && videoMemory.Length == VIDEO_WORDS &&
      disk.Length == DISK_WORDS && timer < TIMER_RELOAD &&
      memory != videoMemory && memory != disk && videoMemory != disk
    }

    /** The abstract value of the machine. */
    ghost function State(): (s: DiskSpec.State)
      reads this, memory, videoMemory, disk
      requires Valid()
      ensures DiskSpec.Wf(s)
    {
      DiskSpec.State(memory[..], videoMemory[..], disk[..], interruptFlag, timer,
                     diskCommand, sector, programCounter, simulatedKey)
    }

    constructor ()
      ensures Valid() && fresh(memory) && fresh(videoMemory) && fresh(disk)
      ensures State() == DiskSpec.Initial()
    {
      memory := new Word[MEMORY_WORDS](_ => 0);
      videoMemory := new Word[VIDEO_WORDS](_ => 0);
      disk := new Word[DISK_WORDS](_ => 0);
      interruptFlag := false;
      timer := 0;
      diskCommand := DiskSpec.CMD_RESET;
      sector := 0;
      programCounter := 0;
      simulatedKey := DiskSpec.FIRST_KEY;
    }

    /** `fetch_instruction`. */
    method FetchInstruction() returns (instruction: Word)
      requires Valid()
      modifies this`programCounter
      ensures Valid()
      ensures (State(), instruction) == DiskSpec.Fetch(old(State()))
    {
      instruction := memory[programCounter];
      programCounter := Succ(programCounter);
    }

    /** The stubs: no state changes, always success. */
    method ExecuteLod(instruction: Word) returns (ok: bool)
      ensures ok
    {
      ok := true;
    }

    method ExecuteAdd(instruction: Word) returns (ok: bool)
      ensures ok
    {
      ok := true;
    }

    method ExecuteJmp(instruction: Word) returns (ok: bool)
      ensures ok
    {
      ok := true;
    }

    /** `execute_instruction`: changes nothing, and succeeds exactly for
        the opcodes with a handler. */
    method ExecuteInstruction(instruction: Word) returns (ok: bool)
      ensures ok <==> HasHandler(instruction)
      ensures OpOf(instruction) == OP_HALT ==> !ok
    {
      var op := OpOf(instruction);
      if op == OP_LOD {
        ok := ExecuteLod(instruction);
      } else if op == OP_ADD {
        ok := ExecuteAdd(instruction);
      } else if op == OP_JMP {
        ok := ExecuteJmp(instruction);
      } else {
        // OP_HALT ends the program; any other nibble is an unknown instruction.
        ok := false;
      }
    }

    /** `read_keyboard`. */
    method ReadKeyboard() returns (keycode: Word)
      requires Valid()
      modifies this`simulatedKey
      ensures Valid()
      ensures (State(), keycode) == DiskSpec.ReadKeyboard(old(State()))
    {
      keycode := simulatedKey;
      simulatedKey := Succ(simulatedKey);
    }

    /** `handle_interrupt`. */
    method HandleInterrupt()
      requires Valid()
      modifies this`simulatedKey, videoMemory
      ensures Valid()
      ensures State() == DiskSpec.HandleInterrupt(old(State()))
    {
      var keycode := ReadKeyboard();
      if keycode != 0 {
        videoMemory[DiskSpec.VideoCell(keycode)] := keycode;
      }
    }

    /** `handle_disk_command`, without the rewrite of the disk image file. */
    method HandleDiskCommand()
      requires Valid()
      modifies memory, disk
      ensures Valid()
      ensures State() == DiskSpec.HandleDiskCommand(old(State()))
    {
      match diskCommand
      case 0 =>
      case 1 =>
        if sector < 10 {
          CopySectorToMemory();
        }
      case 2 =>
        if sector < 10 {
          CopyMemoryToSector();
        }
      case _ =>
    }

    /** `std::copy(disk.begin() + sector * 1024, disk.begin() + (sector + 1) * 1024, memory.begin())`. */
    method CopySectorToMemory()
      requires Valid() && sector < 10
      modifies memory
      ensures Valid()
      ensures memory[..] == DiskSpec.ReadSector(old(memory[..]), disk[..], sector)
    {
      var base := DiskSpec.SectorBase(sector);
      var k := 0;
      while k < SECTOR_WORDS
        modifies memory
        invariant 0 <= k <= SECTOR_WORDS
        invariant forall a :: 0 <= a < k ==> memory[a] == disk[base + a]
        invariant forall a :: k <= a < MEMORY_WORDS ==> memory[a] == old(memory[a])
      {
        memory[k] := disk[base + k];
        k := k + 1;
      }
    }

    /** `std::copy(memory.begin(), memory.begin() + 1024, disk.begin() + sector * 1024)`. */
    method CopyMemoryToSector()
      requires Valid() && sector < 10
      modifies disk
      ensures Valid()
      ensures disk[..] == DiskSpec.WriteSector(memory[..], old(disk[..]), sector)
    {
      var base := DiskSpec.SectorBase(sector);
      var k := 0;
      while k < SECTOR_WORDS
        modifies disk
        invariant 0 <= k <= SECTOR_WORDS
        invariant forall j :: base <= j < base + k ==> disk[j] == memory[j - base]
        invariant forall j :: 0 <= j < DISK_WORDS && !(base <= j < base + k) ==> disk[j] == old(disk[j])
      {
        disk[base + k] := memory[k];
        k := k + 1;
      }
    }

    /** One pass of the body of `execute`'s loop; false where it breaks. */
    method Step() returns (continues: bool)
      requires Valid()
      modifies this, videoMemory
      ensures Valid()
      ensures memory == old(memory) && videoMemory == old(videoMemory) && disk == old(disk)
      ensures (State(), continues) == DiskSpec.Cycle(old(State()))
    {
      if interruptFlag {
        HandleInterrupt();
        interruptFlag := false;
      }
      var instruction := FetchInstruction();
      continues := ExecuteInstruction(instruction);
      if !continues {
        return;
      }
      timer := timer + 1;
      if timer >= TIMER_RELOAD {
        interruptFlag := true;
        timer := 0;
      }
    }

    /** `execute`'s loop, cut off after `fuel` cycles; `halted` tells whether
        it broke out on an instruction before then. */
    method Execute(fuel: nat) returns (halted: bool)
      requires Valid()
      modifies this, videoMemory
      ensures Valid()
      ensures memory == old(memory) && videoMemory == old(videoMemory) && disk == old(disk)
      ensures (State(), !halted) == DiskSpec.Run(old(State()), fuel)
    {
      halted := false;
      var done := 0;
      while done < fuel && !halted
        invariant Valid() && done <= fuel
        invariant memory == old(memory) && videoMemory == old(videoMemory) && disk == old(disk)
        invariant DiskSpec.Run(old(State()), fuel) ==
          if halted then (State(), false) else DiskSpec.Run(State(), fuel - done)
        decreases fuel - done
      {
        var continues := Step();
        halted := !continues;
        done := done + 1;
      }
    }

    /** `test_instructions`: LOD R0, 10 through the stub leaves the 42 at
        address 10 in place. */
    method TestInstructions()
      requires Valid()
      modifies memory
      ensures Valid()
      ensures memory[10] == 42 && memory[0] == 0x100A
      ensures memory[..] == old(memory[..])[0 := 0x100A][10 := 42]
    {
      memory[0] := 0x100A;
      memory[10] := 42;
      var _ := ExecuteInstruction(memory[0]);
    }

    /** `test_interrupts`: raise the flag and run the handler; the flag is
        left set. */
    method TestInterrupts()
      requires Valid()
      modifies this`interruptFlag, this`simulatedKey, videoMemory
      ensures Valid() && interruptFlag
      ensures State() == DiskSpec.HandleInterrupt(old(State()).(interrupt := true))
    {
      interruptFlag := true;
      HandleInterrupt();
    }

    /** `test_video_memory`: the key just read is found in its video cell. */
    method TestVideoMemory()
      requires Valid()
      modifies this`simulatedKey, videoMemory
      ensures Valid()
      ensures videoMemory[DiskSpec.VideoCell(old(simulatedKey))] == old(simulatedKey)
      ensures simulatedKey == (old(simulatedKey) + 1) % 0x1_0000
      ensures forall c :: 0 <= c < VIDEO_WORDS && c != DiskSpec.VideoCell(old(simulatedKey)) ==>
        videoMemory[c] == old(videoMemory[c])
    {
      var keycode := ReadKeyboard();
      videoMemory[DiskSpec.VideoCell(keycode)] := keycode;
    }

    /** `test_disk_operations`: read sector 0, then write it back. */
    method TestDiskOperations()
      requires Valid()
      modifies this`diskCommand, this`sector, memory, disk
      ensures Valid()
      ensures disk[..] == old(disk[..])
      ensures memory[..] == DiskSpec.ReadSector(old(memory[..]), old(disk[..]), 0)
      ensures diskCommand == DiskSpec.CMD_WRITE && sector == 0
    {
      ghost var start := State();
      DiskProperties.DiskOperationsTest(start, 0);
      diskCommand := DiskSpec.CMD_READ;
      sector := 0;
      HandleDiskCommand();
      diskCommand := DiskSpec.CMD_WRITE;
      HandleDiskCommand();
    }

    /** `test`: the four tests in order. The disk read overwrites the low
        kiloword that `test_instructions` wrote, so address 10 then holds the
        disk's word 10; the interrupt flag is left set. */
    method Test()
      requires Valid()
      modifies this`interruptFlag, this`simulatedKey, this`diskCommand, this`sector
      modifies memory, videoMemory, disk
      ensures Valid() && interruptFlag
      ensures disk[..] == old(disk[..])
      ensures memory[..SECTOR_WORDS] == old(disk[..SECTOR_WORDS])
      ensures memory[SECTOR_WORDS..] == old(memory[SECTOR_WORDS..])
      ensures simulatedKey == (old(simulatedKey) + 2) % 0x1_0000
    {
      TestInstructions();
      TestInterrupts();
      TestVideoMemory();
      TestDiskOperations();
    }
  }
}
