/** The functional CPU of emulator2.cpp as a pure state machine: one
    function per step of the cycle (port polling, fetch, the three instruction
    handlers, the timer) and the whole cycle built from them. The class in
    cpu.dfy is proved to follow these functions. */
module CpuSpec {
  import opened Isa

  /** Port addresses at the top of memory. */
  const KEYBOARD_PORT: nat := 0xFFFF
  const DISK_COMMAND_PORT: nat := 0xFFFE
  const DISK_DATA_PORT: nat := 0xFFFD

  /** Disk commands read from the command port. */
  const CMD_READ: Word := 1
  const CMD_WRITE: Word := 2

  datatype State = State(
    memory: seq<Word>,
    registers: seq<Word>,
    disk: seq<Word>,
    pc: Word,
    timer: nat,
    interrupt: bool,
    sector: nat,
    keyboardInput: Word)

  /** The shape every reachable state has: memory covers the whole 16-bit
      address space, sixteen registers, a 10 x 1024-word disk, the word
      index `sector` on the disk, and the timer below its reload value. */
  predicate Wf(s: State)
  {
    |s.memory| == MEMORY_WORDS && |s.registers| == REGISTER_COUNT &&
    |s.disk| == DISK_WORDS && s.sector < |s.disk| && s.timer < TIMER_RELOAD
  }

  /** The state after the constructor; `keyboard_input` is not initialised
      by the source, so it is left as a parameter. */
  function Initial(keyboardInput: Word): (s: State)
    ensures Wf(s)
    ensures s.pc == 0 && s.timer == 0 && !s.interrupt && s.sector == 0
    ensures forall a :: 0 <= a < MEMORY_WORDS ==> s.memory[a] == 0
    ensures forall r :: 0 <= r < REGISTER_COUNT ==> s.registers[r] == 0
    ensures forall k :: 0 <= k < DISK_WORDS ==> s.disk[k] == 0
  {
    State(seq(MEMORY_WORDS, _ => 0), seq(REGISTER_COUNT, _ => 0),
          seq(DISK_WORDS, _ => 0), 0, 0, false, 0, keyboardInput)
  }

  /** `handle_io_ports`: latch a nonzero keyboard port, then run the disk
      command found in the command port. The command port is only read, so a
      command stays there and runs again on every cycle. */
  function HandleIoPorts(s: State): (r: State)
    requires Wf(s)
    ensures Wf(r)
    ensures r.registers == s.registers && r.pc == s.pc && r.timer == s.timer
    ensures r.interrupt == s.interrupt && r.sector == s.sector
    ensures s.memory[KEYBOARD_PORT] != 0 ==> r.keyboardInput == s.memory[KEYBOARD_PORT]
    ensures s.memory[KEYBOARD_PORT] == 0 ==> r.keyboardInput == s.keyboardInput
    ensures s.memory[DISK_COMMAND_PORT] == CMD_READ ==>
      r.memory[DISK_DATA_PORT] == s.disk[s.sector] && r.disk == s.disk
    ensures s.memory[DISK_COMMAND_PORT] == CMD_WRITE ==>
      r.disk[s.sector] == s.memory[DISK_DATA_PORT] && r.memory == s.memory
    ensures s.memory[DISK_COMMAND_PORT] != CMD_READ && s.memory[DISK_COMMAND_PORT] != CMD_WRITE ==>
      r.memory == s.memory && r.disk == s.disk
    ensures forall a :: 0 <= a < MEMORY_WORDS && a != DISK_DATA_PORT ==> r.memory[a] == s.memory[a]
    ensures forall k :: 0 <= k < DISK_WORDS && k != s.sector ==> r.disk[k] == s.disk[k]
  {
    var latched := if s.memory[KEYBOARD_PORT] != 0 then s.memory[KEYBOARD_PORT] else s.keyboardInput;
    var command := s.memory[DISK_COMMAND_PORT];
    if command == CMD_READ then
      s.(keyboardInput := latched, memory := s.memory[DISK_DATA_PORT := s.disk[s.sector]])
    else if command == CMD_WRITE then
      s.(keyboardInput := latched, disk := s.disk[s.sector := s.memory[DISK_DATA_PORT]])
    else
      s.(keyboardInput := latched)
  }

  /** `fetch_instruction`: `memory[program_counter++]`. Memory spans every
      value of the 16-bit program counter, so the read is always in range. */
  function Fetch(s: State): (r: (State, Word))
    requires Wf(s)
    ensures Wf(r.0)
    ensures r.1 == s.memory[s.pc]
    ensures r.0.pc == (s.pc + 1) % MEMORY_WORDS
    ensures r.0 == s.(pc := r.0.pc)
  {
    (s.(pc := Succ(s.pc)), s.memory[s.pc])
  }

  /** `execute_lod`: `registers[reg] = memory[addr]`. */
  function ExecuteLod(s: State, i: Word): (r: (State, bool))
    requires Wf(s)
    ensures Wf(r.0) && r.1
    ensures r.0.registers[RegA(i)] == s.memory[Addr8(i)]
    ensures forall k :: 0 <= k < REGISTER_COUNT && k != RegA(i) ==> r.0.registers[k] == s.registers[k]
    ensures r.0 == s.(registers := r.0.registers)
  {
    (s.(registers := s.registers[RegA(i) := s.memory[Addr8(i)]]), true)
  }

  /** `execute_add`: `registers[reg1] += registers[reg2]` on `uint16_t`.
      The source's guard against a register index of 16 or more is kept; it
      never fires, because both fields are four bits wide. */
  function ExecuteAdd(s: State, i: Word): (r: (State, bool))
    requires Wf(s)
    ensures Wf(r.0) && r.1
    ensures r.0.registers[RegA(i)] == (s.registers[RegA(i)] as int + s.registers[RegB(i)]) % 0x1_0000
    ensures forall k :: 0 <= k < REGISTER_COUNT && k != RegA(i) ==> r.0.registers[k] == s.registers[k]
    ensures r.0 == s.(registers := r.0.registers)
  {
    var reg1, reg2 := RegA(i), RegB(i);
    if reg1 >= REGISTER_COUNT || reg2 >= REGISTER_COUNT then (s, false)
    else (s.(registers := s.registers[reg1 := AddWords(s.registers[reg1], s.registers[reg2])]), true)
  }

  /** `execute_jmp`: `program_counter = instruction & 0x0FFF`. */
  function ExecuteJmp(s: State, i: Word): (r: (State, bool))
    requires Wf(s)
    ensures Wf(r.0) && r.1
    ensures r.0.pc == i % 0x1000 && r.0.pc < 0x1000
    ensures r.0 == s.(pc := r.0.pc)
  {
    (s.(pc := Addr12(i)), true)
  }

  /** `execute_instruction`: dispatch on the high nibble. HALT (0xF) and
      every nibble without a handler return false; both leave the state as
      it is (the source only prints a message for the unknown ones). */
  function ExecuteInstruction(s: State, i: Word): (r: (State, bool))
    requires Wf(s)
    ensures Wf(r.0)
    ensures r.1 <==> HasHandler(i)
    ensures OpOf(i) == OP_HALT ==> !r.1
    ensures !r.1 ==> r.0 == s
    ensures r.0.memory == s.memory && r.0.disk == s.disk
    ensures r.0.timer == s.timer && r.0.interrupt == s.interrupt
  {
    var op := OpOf(i);
    if op == OP_LOD then ExecuteLod(s, i)
    else if op == OP_ADD then ExecuteAdd(s, i)
    else if op == OP_JMP then ExecuteJmp(s, i)
    else (s, false)
  }

  /** The timer step after a successful instruction; the flag is only ever
      set here, never cleared. */
  function AdvanceTimer(s: State): (r: State)
    requires Wf(s)
    ensures Wf(r)
    ensures r.timer == (s.timer + 1) % TIMER_RELOAD
    ensures s.timer == TIMER_RELOAD - 1 ==> r.interrupt
    ensures s.timer < TIMER_RELOAD - 1 ==> r.interrupt == s.interrupt
    ensures r == s.(timer := r.timer, interrupt := r.interrupt)
  {
    var (t, fired) := Tick(s.timer);
    if fired then s.(timer := t, interrupt := true) else s.(timer := t)
  }

  /** The instruction the next cycle executes: the word at the program
      counter once the ports have been polled. */
  function NextInstruction(s: State): Word
    requires Wf(s)
  {
    HandleIoPorts(s).memory[s.pc]
  }

  /** One pass of the body of `execute`'s loop: poll the ports, service and
      clear a pending interrupt, fetch, execute; on success advance the
      timer. Returns false when the loop breaks. */
  function Cycle(s: State): (r: (State, bool))
    requires Wf(s)
    ensures Wf(r.0)
    ensures r.1 <==> HasHandler(NextInstruction(s))
    ensures r.0.memory == HandleIoPorts(s).memory && r.0.disk == HandleIoPorts(s).disk
    ensures r.1 ==> r.0.timer == (s.timer + 1) % TIMER_RELOAD
    ensures r.1 ==> (r.0.interrupt <==> s.timer == TIMER_RELOAD - 1)
    ensures !r.1 ==> r.0.timer == s.timer && !r.0.interrupt
    ensures !r.1 ==> r.0.registers == s.registers && r.0.pc == (s.pc + 1) % MEMORY_WORDS
  {
    var polled := HandleIoPorts(s);
    var serviced := polled.(interrupt := false);
    var (fetched, instruction) := Fetch(serviced);
    var (executed, ok) := ExecuteInstruction(fetched, instruction);
    if !ok then (executed, false) else (AdvanceTimer(executed), true)
  }

  /** At most `fuel` cycles of `execute`; the flag is false when the machine
      halted on the way. */
  function Run(s: State, fuel: nat): (r: (State, bool))
    requires Wf(s)
    ensures Wf(r.0)
    decreases fuel
  {
    if fuel == 0 then (s, true)
    else
      var (next, ok) := Cycle(s);
      if !ok then (next, false) else Run(next, fuel - 1)
  }
}
