# A verified model of the fictitious 16-bit virtual machine

This project models the core of a small emulated 16-bit machine. The
repository carries it in two overlapping variants, and both are modelled:

- **emulator2.cpp — the functional CPU.** It has 65536 words of memory, 16
  registers, a 16-bit program counter, a cycle timer and an interrupt flag.
  Each cycle does five things in order:
  - it polls the memory-mapped ports: the keyboard latch at 0xFFFF, the disk
    command at 0xFFFE and the disk data word at 0xFFFD;
  - it clears a pending interrupt;
  - it fetches `memory[pc++]`;
  - it executes LOD, ADD or JMP, and stops on HALT or an unknown opcode;
  - after a successful instruction it advances the timer, which raises the
    interrupt and reloads at 8000.
- **emulator.cpp — the disk controller and the interrupt/video path.** Its
  controller knows three commands over a 10 × 1024-word disk. Read and write
  copy a whole sector between the disk and `memory[0..1024)` when
  `sector < 10`. The interrupt handler shows a simulated key code `k` in
  `video_memory[k % 8192]`. The same fetch/dispatch/timer loop runs here,
  but LOD, ADD and JMP are stubs that change nothing.

## Layout

- `isa.dfy` (module `Isa`): what both variants share. It holds the word type
  (the values of `uint16_t`), the sizes, the opcode nibbles, the operand
  fields, `uint16_t` addition and increment, and the timer tick. It also
  proves the timer's cadence lemmas.
- `cpu_spec.dfy` (module `CpuSpec`): emulator2.cpp as a pure state machine.
  There is one function per step of the cycle, plus `Cycle`, and `Run` for at
  most `fuel` cycles.
- `cpu_props.dfy` (module `CpuProperties`): lemmas that span several steps.
  They cover the timer over a run, the interrupt bookkeeping, the
  level-triggered disk port, LOD followed by ADD, and the test program.
- `cpu.dfy` (module `Cpu`): the `Emulator` class of emulator2.cpp. Memory,
  disk and registers are `array<Word>` updated in place. Each method is proved
  to have exactly the effect of its `CpuSpec` function on the abstract
  `State()`.
- `disk_spec.dfy`, `disk_props.dfy`, `disk_machine.dfy` (modules `DiskSpec`,
  `DiskProperties`, `DiskMachine`): the same three layers for emulator.cpp.
  In the class, the sector transfers are word-by-word copy loops.

Notes on the source, which the model follows:

- No ROM region is write-protected, and LOD may read any address. Neither
  core file has a ROM check.
- The disk `Reset` command (0) only prints a message. It does not clear
  memory.
- The emulator2.cpp port handler does not intercept memory accesses. It polls
  three ordinary memory words once per cycle. Its disk transfer moves ONE word,
  `disk[sector]`, with `sector` always 0. It does not move a sector.
- The emulator2.cpp interrupt handler only prints. The emulator.cpp handler
  takes its key from a counter, not from the keyboard port.
- The emulator.cpp `execute` loop never calls `handle_disk_command`. Only
  `test_disk_operations` calls it. So a run changes neither memory nor disk
  (`DiskProperties.RunKeepsMemoryAndDisk`).
- The timer is a `nat` kept below 8000 by the object invariant. In the source
  it is a `uint16_t`. From any value below 8000, `timer++` cannot wrap.

## Model

| member | source | states |
|---|---|---|
| `Isa.OpOf` | emulator2.cpp:235 | the opcode selected by `instruction & 0xF000` is one of sixteen nibble values |
| `Isa.RegA` | emulator2.cpp:265 | the first register field is below 16, so the `reg1 >= 16` guard can never fire |
| `Isa.RegB` | emulator2.cpp:266 | the second register field is below 16, so the `reg2 >= 16` guard can never fire |
| `Isa.Addr8` | emulator2.cpp:255 | the LOD address is below 256 |
| `Isa.Addr12` | emulator2.cpp:282 | the JMP target is below 4096 |
| `Isa.FieldsReassemble` | emulator2.cpp:252-286 | opcode, register fields, address fields and low nibble add back up to the instruction word: decoding loses nothing |
| `Isa.AddWords` | emulator2.cpp:275 | `uint16_t` addition gives the exact sum below 2^16 and the sum minus 2^16 above it |
| `Isa.Succ` | emulator2.cpp:228 | `pc++` on `uint16_t` adds one, and 0xFFFF is followed by 0 |
| `Isa.Tick` | emulator2.cpp:80-85 | one timer step gives `(timer + 1) mod 8000`, stays below 8000, and raises the interrupt exactly when it reloads to 0 |
| `Isa.TickNCounts` | emulator2.cpp:80-85 | after `n` successful instructions the timer is `(timer + n) mod 8000` |
| `Isa.InterruptCadence` | emulator2.cpp:80-85 | `n` successful instructions from timer `t` raise exactly `(t + n) / 8000` interrupts |
| `Isa.OneInterruptPer8000` | emulator2.cpp:80-85 | from a fresh timer, 8000 instructions raise exactly one interrupt and fewer raise none |
| `CpuSpec.Initial` | emulator2.cpp:26 | the constructed state: all memory, registers and disk zero; pc, timer and sector 0; no interrupt |
| `CpuSpec.HandleIoPorts` | emulator2.cpp:288-310 | a nonzero keyboard port is latched, and a zero one keeps the old latch. Command 1 sets `memory[0xFFFD] := disk[sector]`. Command 2 sets `disk[sector] := memory[0xFFFD]`. Any other command changes neither memory nor disk. No other memory word or disk word ever changes, and the command port is never cleared |
| `CpuSpec.Fetch` | emulator2.cpp:226-231 | returns `memory[pc]` and sets pc to `(pc + 1) mod 65536`. It needs no bounds check, because memory spans the 16-bit pc. Nothing else changes |
| `CpuSpec.ExecuteLod` | emulator2.cpp:252-261 | `registers[(i>>8)&0xF] := memory[i & 0xFF]` and returns true. Other registers, memory and pc are unchanged |
| `CpuSpec.ExecuteAdd` | emulator2.cpp:263-278 | `registers[r1] := (registers[r1] + registers[r2]) mod 65536` and returns true; the error branch is unreachable. Other registers and the rest of the state are unchanged |
| `CpuSpec.ExecuteJmp` | emulator2.cpp:280-286 | pc becomes exactly `i & 0x0FFF`, so pc < 4096. Registers and memory are unchanged |
| `CpuSpec.ExecuteInstruction` | emulator2.cpp:233-250 | continues iff the high nibble is 1, 2 or 4. HALT (0xF) and every other nibble stop with the state unchanged. Every instruction leaves memory, disk, timer and interrupt flag as they were |
| `CpuSpec.AdvanceTimer` | emulator2.cpp:80-85 | the timer goes to `(timer + 1) mod 8000`. The flag is set when the old timer was 7999 and is otherwise left as it was |
| `CpuSpec.Cycle` | emulator2.cpp:63-90 | continues iff the instruction fetched after polling has a handler. Memory and disk change only through the ports. A successful cycle advances the timer, and its interrupt flag is set iff the timer reloaded, so a flag pending at the start has been cleared. A halting cycle leaves timer and registers unchanged, clears the flag, and has advanced pc by one |
| `CpuSpec.Run` | emulator2.cpp:59-93 | at most `fuel` cycles of the loop, stopping at the first halt, and the result is a well-formed state |
| `CpuProperties.IoPortsIdempotent` | emulator2.cpp:288-310 | polling twice equals polling once |
| `CpuProperties.DiskCommandRepeats` | emulator2.cpp:297-309 | after a cycle the command port still holds the same command. The next cycle repeats the read into the data port, or the write of the data port, with the values of that time |
| `CpuProperties.RunWritesOnlyDataPort` | emulator2.cpp:63-90 | over any run, no memory word except the disk data port changes: no instruction stores to memory |
| `CpuProperties.RunCountsInstructions` | emulator2.cpp:80-85 | after a run of `fuel` successful cycles the timer has ticked once per cycle (`TickN`), so it is `(timer + fuel) mod 8000` |
| `CpuProperties.InterruptsAreServiced` | emulator2.cpp:68-85 | over a run without a halt, interrupts serviced plus the one still pending equal the one pending at the start plus those the timer raised |
| `CpuProperties.ServicedNeedsRaised` | emulator2.cpp:68-85 | with nothing pending and timer `t`, none of the next `8000 - t` cycles services an interrupt |
| `CpuProperties.InterruptAfterReload` | emulator2.cpp:68-85 | with nothing pending and timer `t`, after `8000 - t` successful cycles (8000 from a fresh timer) the flag is set, the timer is 0, and no interrupt was serviced on the way |
| `CpuProperties.LodThenAddDoubles` | emulator2.cpp:252-278 | `LOD r, a` followed by `ADD r, r` succeeds and leaves `2 * memory[a] mod 65536` in `r` |
| `CpuProperties.JumpTargetsNextFetch` | emulator2.cpp:280-286 | a cycle that executes JMP continues, leaves pc at the 12-bit target (< 4096) for the next fetch, and changes no register |
| `CpuProperties.TestProgram` | emulator2.cpp:315 | with program `{0x100A, 0x2001, 0xF000}` and `v` at address 10, the first two cycles continue with `R0 = v`, then `R0 = 2v mod 65536`. The third halts with registers and timer unchanged and pc = 3 |
| `Cpu.Emulator.constructor` | emulator2.cpp:26 | the new object is valid, its arrays are fresh and its state is `CpuSpec.Initial` |
| `Cpu.Emulator.HandleIoPorts` | emulator2.cpp:288-310 | the in-place port handling has exactly the effect of `CpuSpec.HandleIoPorts` |
| `Cpu.Emulator.FetchInstruction` | emulator2.cpp:226-231 | returns the fetched word and updates pc as `CpuSpec.Fetch` |
| `Cpu.Emulator.ExecuteLod` | emulator2.cpp:252-261 | updates the register array as `CpuSpec.ExecuteLod` |
| `Cpu.Emulator.ExecuteAdd` | emulator2.cpp:263-278 | updates the register array as `CpuSpec.ExecuteAdd`, guard included |
| `Cpu.Emulator.ExecuteJmp` | emulator2.cpp:280-286 | overwrites pc as `CpuSpec.ExecuteJmp` |
| `Cpu.Emulator.ExecuteInstruction` | emulator2.cpp:233-250 | dispatches as `CpuSpec.ExecuteInstruction` |
| `Cpu.Emulator.Step` | emulator2.cpp:63-90 | one loop body has exactly the effect of `CpuSpec.Cycle` and keeps the object invariant (timer < 8000 at the start of every cycle) |
| `Cpu.Emulator.Execute` | emulator2.cpp:59-93 | the loop, cut off after `fuel` cycles, reaches the state of `CpuSpec.Run`; `halted` iff it broke out |
| `Cpu.RunTestProgram` | emulator2.cpp:313-326 | on a fresh machine loaded with the test program and `v` at address 10, three cycles halt with `R0 = 2v mod 65536` and pc = 3 |
| `DiskSpec.Initial` | emulator.cpp:11 | the constructed state: zero memory, video and disk; command, sector, pc and timer 0; no interrupt; first key 0x41 |
| `DiskSpec.ReadSector` | emulator.cpp:116-119 | memory word `a < 1024` becomes `disk[sector*1024 + a]`, and every word from 1024 up is unchanged |
| `DiskSpec.WriteSector` | emulator.cpp:124-126 | disk word `sector*1024 + a` becomes `memory[a]`; every other sector's words are unchanged |
| `DiskSpec.HandleDiskCommand` | emulator.cpp:111-137 | read (1) and write (2) with `sector < 10` do the sector copy, and only memory or only disk changes. With `sector >= 10`, and for reset (0) or an unknown command, nothing changes |
| `DiskSpec.ReadKeyboard` | emulator.cpp:105-109 | returns the current key and advances it by one modulo 65536, changing nothing else |
| `DiskSpec.VideoCell` | emulator.cpp:100 | the cell `k % 8192` is inside video memory |
| `DiskSpec.HandleInterrupt` | emulator.cpp:94-103 | a nonzero key `k` is written to `video[k % 8192]` and no other cell changes; a zero key leaves video untouched. The key advances in both cases, and nothing else changes |
| `DiskSpec.Fetch` | emulator.cpp:68-72 | returns `memory[pc]` and sets pc to `(pc + 1) mod 65536` |
| `DiskSpec.ExecuteLod` | emulator.cpp:169-174 | the LOD stub succeeds |
| `DiskSpec.ExecuteAdd` | emulator.cpp:176-181 | the ADD stub succeeds |
| `DiskSpec.ExecuteJmp` | emulator.cpp:183-187 | the JMP stub succeeds |
| `DiskSpec.ExecuteInstruction` | emulator.cpp:74-92 | succeeds iff the high nibble is 1, 2 or 4; HALT fails |
| `DiskSpec.Cycle` | emulator.cpp:28-46 | continues iff the fetched word has a handler. pc advances by exactly one whatever the instruction, JMP included. Memory, disk and the controller registers never change. Video and key change only when an interrupt was pending, and then exactly as `HandleInterrupt` changes them before the fetch. The timer and flag behave as in the functional CPU |
| `DiskSpec.Run` | emulator.cpp:28-46 | at most `fuel` cycles of the loop, stopping at the first halt |
| `DiskProperties.ReadThenWriteKeepsDisk` | emulator.cpp:116-126 | reading a sector into memory and writing it back leaves the whole disk unchanged |
| `DiskProperties.WriteThenReadRestores` | emulator.cpp:116-126 | writing a sector and later reading it into any memory restores exactly the written 1024 words and leaves the rest of that memory as it was |
| `DiskProperties.DiskOperationsTest` | emulator.cpp:160-167 | read then write of the same sector leaves the disk unchanged and the sector in memory. With a sector of 10 or more, neither command changes memory or disk |
| `DiskProperties.KeysAreSuccessive` | emulator.cpp:105-109 | `n` successive reads return `key, key+1, …` modulo 65536 |
| `DiskProperties.FirstKeys` | emulator.cpp:105-109 | on a fresh machine the first read returns 0x41 and the `j`-th returns `(0x41 + j) mod 65536` |
| `DiskProperties.RunKeepsMemoryAndDisk` | emulator.cpp:28-46 | no run changes memory, disk, command or sector |
| `DiskProperties.RunAdvancesPc` | emulator.cpp:68-72 | after `fuel` successful cycles pc is `(pc + fuel) mod 65536`, and the timer has ticked once per cycle (`TickN`) to `(timer + fuel) mod 8000` |
| `DiskMachine.Emulator.constructor` | emulator.cpp:11 | the new object is valid and its state is `DiskSpec.Initial` |
| `DiskMachine.Emulator.FetchInstruction` | emulator.cpp:68-72 | fetches as `DiskSpec.Fetch` |
| `DiskMachine.Emulator.ExecuteLod` | emulator.cpp:169-174 | succeeds and, having no frame, changes no state |
| `DiskMachine.Emulator.ExecuteAdd` | emulator.cpp:176-181 | succeeds and changes no state |
| `DiskMachine.Emulator.ExecuteJmp` | emulator.cpp:183-187 | succeeds and changes no state; in particular it does not move pc |
| `DiskMachine.Emulator.ExecuteInstruction` | emulator.cpp:74-92 | succeeds iff the opcode has a handler and changes no state |
| `DiskMachine.Emulator.ReadKeyboard` | emulator.cpp:105-109 | returns and advances the key as `DiskSpec.ReadKeyboard` |
| `DiskMachine.Emulator.HandleInterrupt` | emulator.cpp:94-103 | writes video memory in place as `DiskSpec.HandleInterrupt` |
| `DiskMachine.Emulator.HandleDiskCommand` | emulator.cpp:111-137 | has exactly the effect of `DiskSpec.HandleDiskCommand` on memory and disk |
| `DiskMachine.Emulator.CopySectorToMemory` | emulator.cpp:118 | the copy loop leaves memory equal to `DiskSpec.ReadSector` of the old memory |
| `DiskMachine.Emulator.CopyMemoryToSector` | emulator.cpp:126 | the copy loop leaves the disk equal to `DiskSpec.WriteSector` of the old disk |
| `DiskMachine.Emulator.Step` | emulator.cpp:29-45 | one loop body has exactly the effect of `DiskSpec.Cycle` and keeps timer < 8000 |
| `DiskMachine.Emulator.Execute` | emulator.cpp:28-46 | the loop cut off after `fuel` cycles reaches the state of `DiskSpec.Run` |
| `DiskMachine.Emulator.TestInstructions` | emulator.cpp:139-145 | after LOD R0, 10 through the stub, `memory[10]` is still 42; only words 0 and 10 were written |
| `DiskMachine.Emulator.TestInterrupts` | emulator.cpp:147-151 | sets the flag, runs the handler, and leaves the flag set |
| `DiskMachine.Emulator.TestVideoMemory` | emulator.cpp:153-158 | the key just read is in its video cell, no other cell changed, and the key advanced |
| `DiskMachine.Emulator.TestDiskOperations` | emulator.cpp:160-167 | after read then write of sector 0, the disk is unchanged and memory holds `DiskSpec.ReadSector` of sector 0 |
| `DiskMachine.Emulator.Test` | emulator.cpp:48-54 | the four tests in order leave the disk unchanged and memory's low kiloword equal to disk sector 0; the key advanced by two and the flag left set |

## Left out

- The SDL plumbing of emulator2.cpp is left out. That is the window,
  rendering, `draw_screen`, `draw_keyboard`, `handle_keyboard_input`'s event
  polling, the `SDL_Delay` pacing, and the global `key_map` and `io_ports`.
  None of it touches the machine's state. (`handle_keyboard_input` writes
  `io_ports[0xFFFF]`, one past the end of a 0xFFFF-byte array.) The
  video memory of emulator2.cpp is left out because only `draw_screen` reads
  it and nothing writes it. Its `disk_command` field is left out because it is
  initialised and never used.
- `start_timer`: it is a sleeping real-time loop.
- File I/O is left out: `load_memory`, `load_disk`, the rewrite of the disk
  image after a write, and the file writing in `generate_test_files`. Both
  `main` functions are left out too. Memory and disk are in-memory arrays;
  `Cpu.RunTestProgram` stores the test program directly.
- main.cpp is left out entirely. It is console rendering, `std::cin` input,
  wall-clock interrupt timing and file-backed sector I/O.
- Every diagnostic print is left out. emulator2.cpp's `handle_interrupt`
  only prints, so its only effect in the model is the flag clearing done by
  the loop.
- The `while (true)` loops in both `execute` methods are cut off after
  `fuel` cycles. `Execute(fuel)` and `Run(s, fuel)` say nothing about
  non-terminating programs beyond that bound.
- In emulator.cpp, `program_counter` and `simulated_key` are function-local
  statics. The source therefore shares them between all `Emulator` objects
  and never resets them. The model gives each object its own copy, starting
  at 0 and 0x41.
- `Cpu.Emulator.constructor`: it promises nothing about `keyboardInput`,
  because the source leaves `keyboard_input` uninitialised.
- `sector` in emulator2.cpp is always 0 and has no port. The model keeps it
  as a field, and the invariant requires it to index the disk.
