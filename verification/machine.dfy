/** The 32-bit address space the tracer runs in, and its two fault-tolerant
    memory probes.

    Memory is byte-addressed. A byte address is either readable or not, and
    either writable or not; a word is four consecutive bytes, stored
    little-endian as on x86. The C probes attempt the real access under
    sigsetjmp and report a SIGSEGV as failure; here each probe is a total
    check against the permission sets. */
module Machine {

  const ADDRESS_SPACE: int := 0x1_0000_0000

  type Word = x: int | 0 <= x < 0x1_0000_0000
  type Byte = x: int | 0 <= x < 0x100

  /** The value the write probe stores (DUMMY_VALUE). */
  const DUMMY_VALUE: Word := 10

  datatype Option<T> = None | Some(value: T)

  /** Pointer arithmetic on the 32-bit machine wraps around. */
  function Offset(a: Word, k: int): Word
  {
    (a + k) % ADDRESS_SPACE
  }

  /** Byte contents and the two permission sets of the address space. */
  datatype MemState = MemState(bytes: map<Word, Byte>, readable: set<Word>, writable: set<Word>)

  /** A snapshot of the address space: every readable byte has contents. */
  type Mem = m: MemState | m.readable <= m.bytes.Keys witness MemState(map[], {}, {})

  /** Contents of one readable byte. */
  function ByteAt(m: Mem, a: Word): Byte
    requires a in m.readable
  {
    m.bytes[a]
  }

  /** is_address_valid: loading the word at a does not fault. */
  predicate IsAddressValid(m: Mem, a: Word)
  {
    a in m.readable && Offset(a, 1) in m.readable
    && Offset(a, 2) in m.readable && Offset(a, 3) in m.readable
  }

  /** Storing a word at a does not fault. */
  predicate IsWritable(m: Mem, a: Word)
  {
    a in m.writable && Offset(a, 1) in m.writable
    && Offset(a, 2) in m.writable && Offset(a, 3) in m.writable
  }

  /** Little-endian bytes of a word. */
  function WordBytes(w: Word): seq<Byte>
  {
    var q1 := w / 0x100;
    var q2 := q1 / 0x100;
    [w % 0x100, q1 % 0x100, q2 % 0x100, q2 / 0x100]
  }

  /** Assembles a word from its little-endian bytes. */
  function FromBytes(b0: Byte, b1: Byte, b2: Byte, b3: Byte): Word
  {
    b0 + 0x100 * b1 + 0x1_0000 * b2 + 0x100_0000 * b3
  }

  /** Splitting a word into bytes and assembling them gives the word back. */
  lemma BytesRoundTrip(w: Word)
    ensures var b := WordBytes(w); FromBytes(b[0], b[1], b[2], b[3]) == w
  {
    var q1 := w / 0x100;
    var q2 := q1 / 0x100;
    assert w == 0x100 * q1 + w % 0x100;
    assert q1 == 0x100 * q2 + q1 % 0x100;
    assert q2 == 0x100 * (q2 / 0x100) + q2 % 0x100;
  }

  /** The word a load at a yields (GET_ARG, GET_OLD_EBP); only done after a probe. */
  function ReadWord(m: Mem, a: Word): Word
    requires IsAddressValid(m, a)
  {
    FromBytes(ByteAt(m, a), ByteAt(m, Offset(a, 1)), ByteAt(m, Offset(a, 2)), ByteAt(m, Offset(a, 3)))
  }

  /** The memory after a store of w at a (only done when IsWritable). */
  function StoreWord(m: Mem, a: Word, w: Word): Mem
  {
    var b := WordBytes(w);
    m.(bytes := m.bytes[a := b[0]][Offset(a, 1) := b[1]][Offset(a, 2) := b[2]][Offset(a, 3) := b[3]])
  }

  /** The four byte addresses of the word at a. */
  function Footprint(a: Word): set<Word>
  {
    {a, Offset(a, 1), Offset(a, 2), Offset(a, 3)}
  }

  /** A store followed by a load at the same address yields the stored word,
      and a load whose bytes do not overlap the store is unaffected. */
  lemma StoreThenLoad(m: Mem, a: Word, w: Word, b: Word)
    requires IsAddressValid(m, a) && IsAddressValid(m, b)
    ensures ReadWord(StoreWord(m, a, w), a) == w
    ensures Footprint(a) !! Footprint(b) ==> ReadWord(StoreWord(m, a, w), b) == ReadWord(m, b)
  {
    var m' := StoreWord(m, a, w);
    assert Offset(a, 1) != a && Offset(a, 2) != a && Offset(a, 3) != a;
    assert Offset(a, 2) != Offset(a, 1) && Offset(a, 3) != Offset(a, 1) && Offset(a, 3) != Offset(a, 2);
    assert ByteAt(m', a) == WordBytes(w)[0];
    assert ByteAt(m', Offset(a, 1)) == WordBytes(w)[1];
    assert ByteAt(m', Offset(a, 2)) == WordBytes(w)[2];
    assert ByteAt(m', Offset(a, 3)) == WordBytes(w)[3];
    BytesRoundTrip(w);
  }

  /** Where writable bytes are readable, as in every address space the
      tracer runs in, a word the write probe can store to is also one that
      is_address_valid accepts. */
  lemma WritableIsValid(m: Mem, a: Word)
    requires m.writable <= m.readable
    ensures IsWritable(m, a) ==> IsAddressValid(m, a)
  {
  }

  /** The probes look only at permissions: a store, such as the one the
      write probe makes, never changes what is_address_valid or the write
      probe answers for any word. */
  lemma StoreKeepsProbes(m: Mem, a: Word, w: Word, b: Word)
    ensures IsAddressValid(StoreWord(m, a, w), b) <==> IsAddressValid(m, b)
    ensures IsWritable(StoreWord(m, a, w), b) <==> IsWritable(m, b)
  {
  }

  /** The live address space: byte contents change (the write probe), the
      permissions do not. */
  class AddressSpace {
    var bytes: map<Word, Byte>
    const readable: set<Word>
    const writable: set<Word>

    /** Readable bytes have contents; x86 pages that can be written can
        also be read. */
    predicate Valid()
      reads this
    {
      readable <= bytes.Keys && writable <= readable
    }

    function View(): Mem
      requires Valid()
      reads this
    {
      MemState(bytes, readable, writable)
    }

    constructor (contents: map<Word, Byte>, canRead: set<Word>, canWrite: set<Word>)
      requires canRead <= contents.Keys && canWrite <= canRead
      ensures Valid() && View() == MemState(contents, canRead, canWrite)
    {
      bytes, readable, writable := contents, canRead, canWrite;
    }

    /** check_mem_addr_writtable: tries to store DUMMY_VALUE at addr. On
        success the word really holds 10 afterwards; a failed store changes
        nothing. */
    method CheckMemAddrWritable(addr: Word) returns (ok: bool)
      requires Valid()
      modifies this
      ensures Valid()
      ensures ok <==> IsWritable(old(View()), addr)
      ensures View() == if ok then StoreWord(old(View()), addr, DUMMY_VALUE) else old(View())
      ensures ok ==> IsAddressValid(View(), addr) && ReadWord(View(), addr) == DUMMY_VALUE
    {
      ok := IsWritable(View(), addr);
      if ok {
        WritableIsValid(View(), addr);
        StoreThenLoad(View(), addr, DUMMY_VALUE, addr);
        bytes := StoreWord(View(), addr, DUMMY_VALUE).bytes;
      }
    }
  }
}
