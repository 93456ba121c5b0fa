/** Properties of the emulator.cpp machine that relate several operations:
    the sector round trips exercised by `test_disk_operations`, the sequence
    of simulated keys, and what the stubbed execution loop can and cannot
    change. */
module DiskProperties {
  import opened Isa
  import opened DiskSpec

  /** Reading a sector into memory and writing memory straight back to the
      same sector leaves the whole disk as it was. */
  lemma ReadThenWriteKeepsDisk(memory: seq<Word>, disk: seq<Word>, sector: nat)
    requires |memory| == MEMORY_WORDS && |disk| == DISK_WORDS && sector < SECTOR_COUNT
    ensures WriteSector(ReadSector(memory, disk, sector), disk, sector) == disk
  {
    var read := ReadSector(memory, disk, sector);
    var written := WriteSector(read, disk, sector);
    forall k | 0 <= k < DISK_WORDS
      ensures written[k] == disk[k]
    {
      var base := SectorBase(sector);
      if base <= k < base + SECTOR_WORDS {
        assert written[k] == read[k - base];
      }
    }
  }

  /** Writing memory's first 1024 words to a sector and reading that sector
      back later, into any memory, restores exactly those words; the rest
      of the later memory is untouched. */
  lemma WriteThenReadRestores(memory: seq<Word>, later: seq<Word>, disk: seq<Word>, sector: nat)
    requires |memory| == MEMORY_WORDS && |later| == MEMORY_WORDS && |disk| == DISK_WORDS
    requires sector < SECTOR_COUNT
    ensures ReadSector(later, WriteSector(memory, disk, sector), sector)[..SECTOR_WORDS]
      == memory[..SECTOR_WORDS]
    ensures ReadSector(later, WriteSector(memory, disk, sector), sector)[SECTOR_WORDS..]
      == later[SECTOR_WORDS..]
  {
    var written := WriteSector(memory, disk, sector);
    var restored := ReadSector(later, written, sector);
    forall a | 0 <= a < SECTOR_WORDS
      ensures restored[a] == memory[a]
    {
      assert restored[a] == written[SectorBase(sector) + a];
    }
  }

  /** `test_disk_operations` for any sector: command 1 then command 2 on
      the same sector leave the disk unchanged and the sector's words in
      memory; with a sector of 10 or more neither command changes anything. */
  lemma DiskOperationsTest(s: State, sector: Word)
    requires Wf(s)
    ensures var read := HandleDiskCommand(s.(diskCommand := CMD_READ, sector := sector));
            var written := HandleDiskCommand(read.(diskCommand := CMD_WRITE));
            written.disk == s.disk &&
            (sector < SECTOR_COUNT ==> written.memory == ReadSector(s.memory, s.disk, sector)) &&
            (sector >= SECTOR_COUNT ==> written.memory == s.memory)
  {
    if sector < SECTOR_COUNT {
      ReadThenWriteKeepsDisk(s.memory, s.disk, sector);
    }
  }

  /** The keys returned by `n` successive calls of `read_keyboard`. */
  function KeysRead(s: State, n: nat): seq<Word>
    requires Wf(s)
    decreases n
  {
    if n == 0 then []
    else
      var (next, key) := ReadKeyboard(s);
      [key] + KeysRead(next, n - 1)
  }

  /** Successive calls of `read_keyboard` return successive values modulo
      2^16, starting at the current key. */
  lemma {:induction false} KeysAreSuccessive(s: State, n: nat)
    requires Wf(s)
    ensures |KeysRead(s, n)| == n
    ensures forall j :: 0 <= j < n ==> KeysRead(s, n)[j] == (s.simulatedKey + j) % 0x1_0000
    decreases n
  {
    if n > 0 {
      var (next, key) := ReadKeyboard(s);
      KeysAreSuccessive(next, n - 1);
      forall j | 1 <= j < n
        ensures KeysRead(s, n)[j] == (s.simulatedKey + j) % 0x1_0000
      {
        assert KeysRead(s, n)[j] == KeysRead(next, n - 1)[j - 1];
        assert next.simulatedKey == (s.simulatedKey + 1) % 0x1_0000;
      }
    }
  }

  /** From a fresh machine the keys are 'A' (0x41), 'B', 'C', ... */
  lemma FirstKeys(n: nat)
    ensures |KeysRead(Initial(), n)| == n
    ensures n > 0 ==> KeysRead(Initial(), n)[0] == 0x41
    ensures forall j :: 0 <= j < n ==> KeysRead(Initial(), n)[j] == (0x41 + j) % 0x1_0000
  {
    KeysAreSuccessive(Initial(), n);
  }

  /** `execute` never reaches the disk controller and the stubs store
      nothing: memory, disk and the controller's registers are the same after
      any run (this is why `test_instructions` finds address 10 intact). */
  lemma {:induction false} RunKeepsMemoryAndDisk(s: State, fuel: nat)
    requires Wf(s)
    ensures Run(s, fuel).0.memory == s.memory && Run(s, fuel).0.disk == s.disk
    ensures Run(s, fuel).0.diskCommand == s.diskCommand && Run(s, fuel).0.sector == s.sector
    decreases fuel
  {
    if fuel > 0 {
      var (next, ok) := Cycle(s);
      if ok {
        RunKeepsMemoryAndDisk(next, fuel - 1);
      }
    }
  }

  /** Because the JMP stub does not jump, the program counter counts the
      fetches: after a run of `fuel` successful instructions it has moved on
      by exactly `fuel` words, modulo 2^16, and the timer by `fuel` ticks. */
  lemma {:induction false} RunAdvancesPc(s: State, fuel: nat)
    requires Wf(s)
    ensures Run(s, fuel).1 ==> Run(s, fuel).0.pc == (s.pc + fuel) % MEMORY_WORDS
    ensures Run(s, fuel).1 ==> Run(s, fuel).0.timer == TickN(s.timer, fuel)
    ensures Run(s, fuel).1 ==> Run(s, fuel).0.timer == (s.timer + fuel) % TIMER_RELOAD
    decreases fuel
  {
    TickNCounts(s.timer, fuel);
    if fuel > 0 {
      var (next, ok) := Cycle(s);
      if ok {
        RunAdvancesPc(next, fuel - 1);
      }
    }
  }
}
