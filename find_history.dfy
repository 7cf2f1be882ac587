/**
 * The find and replace histories of the pattern editor's find/replace
 * dialog: a fixed array of 256 strings with a u32 fill count and a u32
 * browsing index, filled by historyInsert and browsed with the arrow keys.
 * While the history is not full, new words are appended; once it is full,
 * the slot just before the index is overwritten, so the index acts as the
 * position of the oldest entry of a ring.
 */
module FindHistory {

  import opened MachineInt

  const SLOTS: nat := 256

  /** The value is among the first `size` slots. */
  predicate Recorded(slots: seq<string>, size: nat, value: string)
    requires size <= |slots|
  {
    exists i :: 0 <= i < size && slots[i] == value
  }

  /** The slot a full history overwrites: (index - 1) in u32, modulo 256. */
  function OverwriteSlot(index: u32): (slot: nat)
    ensures slot < SLOTS
    ensures index == 0 ==> slot == SLOTS - 1
    ensures 0 < index <= SLOTS ==> slot == index - 1
  {
    ToU32(index - 1) % SLOTS
  }

  /** historyInsert on the history as a value: new slots, size and index. */
  function AfterInsert(slots: seq<string>, size: u32, index: u32, value: string): (r: (seq<string>, u32, u32))
    requires |slots| == SLOTS && size <= SLOTS
    ensures |r.0| == SLOTS && r.1 <= SLOTS
  {
    if Recorded(slots, size, value) then (slots, size, index)
    else if size < SLOTS then (slots[size := value], size + 1, index)
    else
      var slot := OverwriteSlot(index);
      (slots[slot := value], size, (slot + 1) % SLOTS)
  }

  /** A value already among the first `size` entries changes nothing. */
  lemma InsertRecordedUnchanged(slots: seq<string>, size: u32, index: u32, value: string, i: nat)
    requires |slots| == SLOTS && size <= SLOTS
    requires i < size && slots[i] == value
    ensures AfterInsert(slots, size, index, value) == (slots, size, index)
  {
  }

  /** Below 256 entries a new value goes into slot `size`, and only there. */
  lemma InsertAppends(slots: seq<string>, size: u32, index: u32, value: string)
    requires |slots| == SLOTS && size < SLOTS
    requires !Recorded(slots, size, value)
    ensures var (s, n, k) := AfterInsert(slots, size, index, value);
      && n == size + 1 && k == index && s[size] == value
      && forall j :: 0 <= j < SLOTS && j != size ==> s[j] == slots[j]
  {
  }

  /**
   * A full history overwrites slot (index - 1) mod 256, so index 0 writes
   * slot 255; the size stays 256 and an index below 256 is left as it was.
   */
  lemma InsertOverwrites(slots: seq<string>, size: u32, index: u32, value: string)
    requires |slots| == SLOTS && size == SLOTS
    requires !Recorded(slots, size, value)
    ensures var (s, n, k) := AfterInsert(slots, size, index, value);
      && n == SLOTS
      && s[OverwriteSlot(index)] == value
      && (forall j :: 0 <= j < SLOTS && j != OverwriteSlot(index) ==> s[j] == slots[j])
      && (index < SLOTS ==> k == index)
  {
  }

  /** After historyInsert the value is always recorded. */
  lemma InsertRecords(slots: seq<string>, size: u32, index: u32, value: string)
    requires |slots| == SLOTS && size <= SLOTS
    ensures var (s, n, _) := AfterInsert(slots, size, index, value); Recorded(s, n, value)
  {
    var (s, n, _) := AfterInsert(slots, size, index, value);
    if !Recorded(slots, size, value) {
      if size < SLOTS {
        assert s[size] == value;
      } else {
        assert s[OverwriteSlot(index)] == value;
      }
    }
  }

  /** Inserting the same value twice is the same as inserting it once. */
  lemma InsertIdempotent(slots: seq<string>, size: u32, index: u32, value: string)
    requires |slots| == SLOTS && size <= SLOTS
    ensures var (s, n, k) := AfterInsert(slots, size, index, value);
      AfterInsert(s, n, k, value) == (s, n, k)
  {
    InsertRecords(slots, size, index, value);
  }

  /** Before the history is full nothing recorded is lost. */
  lemma InsertKeepsEntries(slots: seq<string>, size: u32, index: u32, value: string, other: string)
    requires |slots| == SLOTS && size < SLOTS
    requires Recorded(slots, size, other)
    ensures var (s, n, _) := AfterInsert(slots, size, index, value); Recorded(s, n, other)
  {
    var i :| 0 <= i < size && slots[i] == other;
    var (s, n, _) := AfterInsert(slots, size, index, value);
    assert s[i] == other;
  }

  /** The size never exceeds 256, and an index within the size stays within it. */
  lemma InsertKeepsBounds(slots: seq<string>, size: u32, index: u32, value: string)
    requires |slots| == SLOTS && index <= size <= SLOTS
    ensures var (_, n, k) := AfterInsert(slots, size, index, value); k <= n <= SLOTS
  {
  }

  /** The up arrow: (index + size - 1) % size in u32 arithmetic. */
  function Up(index: u32, size: u32): (r: u32)
    requires size > 0
    ensures r < size
  {
    ToU32(index + size - 1) % size
  }

  /** The down arrow: (index + 1) % size in u32 arithmetic. */
  function Down(index: u32, size: u32): (r: u32)
    requires size > 0
    ensures r < size
  {
    ToU32(index + 1) % size
  }

  lemma ModShift(a: int, n: int)
    requires 0 <= a < n
    ensures a % n == a && (a + n) % n == a
  {
    assert (a + n) - n == a;
  }

  /**
   * Without u32 overflow, up moves to the previous entry and wraps from the
   * first to the last; from the "not browsing" index `size` it moves to the
   * newest entry.
   */
  lemma UpStep(index: u32, size: u32)
    requires 0 < size && index <= size && index + size <= U32_LIMIT
    ensures Up(index, size) == if index == 0 then size - 1 else index - 1
  {
    if index == 0 {
      ModShift(size - 1, size);
    } else {
      ModShift(index - 1, size);
    }
  }

  /** Down moves to the next entry and wraps from the last to the first. */
  lemma DownStep(index: u32, size: u32)
    requires index < size
    ensures Down(index, size) == if index == size - 1 then 0 else index + 1
  {
    if index < size - 1 {
      ModShift(index + 1, size);
    }
  }

  /** Up and down undo each other on every index in range. */
  lemma UpDownInverse(index: u32, size: u32)
    requires index < size <= SLOTS
    ensures Down(Up(index, size), size) == index
    ensures Up(Down(index, size), size) == index
  {
    UpStep(index, size);
    DownStep(Up(index, size), size);
    DownStep(index, size);
    UpStep(Down(index, size), size);
  }

  class History {
    const slots: array<string>
    var size: u32
    var index: u32

    /** The fill count never exceeds the array, and browsing stays within it. */
    ghost predicate Valid()
      reads this
    {
      slots.Length == SLOTS && index <= size <= SLOTS
    }

    constructor ()
      ensures Valid() && fresh(slots)
      ensures size == 0 && index == 0
    {
      slots := new string[SLOTS](_ => "");
      size := 0;
      index := 0;
    }

    /** historyInsert */
    method Insert(value: string)
      requires slots.Length == SLOTS && size <= SLOTS
      modifies this, slots
      ensures (slots[..], size, index) == AfterInsert(old(slots[..]), old(size), old(index), value)
      ensures old(Valid()) ==> Valid()
    {
      if index <= size {
        InsertKeepsBounds(slots[..], size, index, value);
      }
      var i: u64 := 0;
      while i < size
        invariant i <= size
        invariant forall j :: 0 <= j < i ==> slots[j] != value
      {
        if slots[i] == value {
          assert Recorded(slots[..], size, value) by {
            assert slots[..][i] == value;
          }
          return;
        }
        i := i + 1;
      }
      assert !Recorded(slots[..], size, value);
      if size < SLOTS as u32 {
        slots[size] := value;
        size := size + 1;
      } else {
        index := ToU32(index - 1) % SLOTS;
        slots[index] := value;
        index := (index + 1) % SLOTS;
      }
    }

    /**
     * The arrow keys while the input is active and the history is not
     * empty: up, then down, then the word at the new index.
     */
    method Browse(up: bool, down: bool) returns (word: string)
      requires slots.Length == SLOTS && 0 < size <= SLOTS && (up || down)
      modifies this
      ensures size == old(size)
      ensures var moved := if up then Up(old(index), old(size)) else old(index);
        index == if down then Down(moved, old(size)) else moved
      ensures index < size && word == slots[index]
      ensures old(Valid()) ==> Valid()
    {
      if up {
        index := ToU32(index + size - 1) % size;
      }
      if down {
        index := ToU32(index + 1) % size;
      }
      word := slots[index];
    }
  }
}
