/** How directory records lie in a block: 40 bytes of name, then a 32-bit inumber. */
module Layout {
  import opened Base

  type RawName = n: seq<Byte> | |n| == MAX_FILE_NAME witness seq(MAX_FILE_NAME, _ => 0)

  /** One dir_entry_t as read from memory. */
  datatype Entry = Entry(name: RawName, inum: int)

  const NO_INUM := -1

  predicate Live(e: Entry) {
    e.inum != NO_INUM
  }

  predicate FitsInt(n: int) {
    -INT_MAX - 1 <= n <= INT_MAX
  }

  /** An int as four little-endian bytes. */
  function EncodeInt(n: int): (b: seq<Byte>)
    ensures |b| == 4
  {
    var u := n % UINT_RANGE;
    [u % 256, u / 256 % 256, u / 65536 % 256, u / 16777216]
  }

  function DecodeInt(b: seq<Byte>): (n: int)
    requires |b| == 4
    ensures FitsInt(n)
  {
    var b0: int, b1: int, b2: int, b3: int := b[0], b[1], b[2], b[3];
    var u := b0 + 256 * b1 + 65536 * b2 + 16777216 * b3;
    if u > INT_MAX then u - UINT_RANGE else u
  }

  lemma IntRoundTrip(n: int)
    requires FitsInt(n)
    ensures DecodeInt(EncodeInt(n)) == n
  {
    var u := n % UINT_RANGE;
    var q1, q2 := u / 256, u / 65536;
    assert q2 == q1 / 256 && u / 16777216 == q2 / 256;
    assert u == 256 * q1 + u % 256;
    assert q1 == 256 * q2 + q1 % 256;
    assert q2 == 256 * (q2 / 256) + q2 % 256;
  }

  function Zeros(n: nat): (z: seq<Byte>)
    ensures |z| == n && forall i :: 0 <= i < n ==> z[i] == 0
  {
    seq(n, _ => 0)
  }

  /** strncpy of at most 39 bytes, zero-padded, and a final NUL. */
  function NameField(name: CString): (r: RawName)
  {
    var kept := name[..Min(|name|, MAX_FILE_NAME - 1)];
    kept + Zeros(MAX_FILE_NAME - |kept|)
  }

  /** strcmp(field, s) == 0; a comparison that would leave the field counts as unequal. */
  predicate StrEq(field: RawName, s: CString) {
    |s| < MAX_FILE_NAME && field[..|s|] == s && field[|s|] == 0
  }

  /** strncmp(field, s, MAX_FILE_NAME) == 0. */
  predicate StrnEq(field: RawName, s: CString) {
    if |s| < MAX_FILE_NAME then field[..|s|] == s && field[|s|] == 0 else field == s[..MAX_FILE_NAME]
  }

  /** What the C loops do: compare up to n bytes, and stop at a difference or after a common NUL; leaving
      either array counts as a difference. */
  predicate CompareEqual(a: seq<Byte>, b: seq<Byte>, n: nat) {
    n == 0 || (a != [] && b != [] && a[0] == b[0] && (a[0] == 0 || CompareEqual(a[1..], b[1..], n - 1)))
  }

  function Terminated(s: CString): seq<Byte> {
    var bytes: seq<Byte> := s;
    bytes + [0]
  }

  lemma {:induction false} CompareIs(a: seq<Byte>, s: CString, n: nat)
    ensures CompareEqual(a, Terminated(s), n) <==>
            if |s| < n then |s| < |a| && a[..|s|] == s && a[|s|] == 0 else n <= |a| && a[..n] == s[..n]
    decreases n
  {
    if n == 0 {
    } else if s == [] {
      assert Terminated(s)[0] == 0;
    } else {
      var b := Terminated(s);
      assert b[0] == s[0] && b[1..] == Terminated(s[1..]);
      if a != [] && a[0] == s[0] {
        CompareIs(a[1..], s[1..], n - 1);
        CompareFirst(a, s, n);
      }
    }
  }

  lemma CompareFirst(a: seq<Byte>, s: CString, n: nat)
    requires n > 0 && s != [] && a != [] && a[0] == s[0]
    ensures |s| < |a| ==> (a[..|s|] == s <==> a[1..][..|s| - 1] == s[1..])
    ensures n <= |a| && n <= |s| ==> (a[..n] == s[..n] <==> a[1..][..n - 1] == s[1..][..n - 1])
  {
    if |s| < |a| {
      assert a[..|s|] == [a[0]] + a[1..][..|s| - 1] && s == [s[0]] + s[1..];
    }
    if n <= |a| && n <= |s| {
      assert a[..n] == [a[0]] + a[1..][..n - 1] && s[..n] == [s[0]] + s[1..][..n - 1];
    }
  }

  /** StrEq and StrnEq are the results of these loops on a name of 40 bytes, terminated or not. */
  lemma StringFunctions(field: RawName, s: CString)
    ensures StrEq(field, s) <==> CompareEqual(field, Terminated(s), |s| + 1)
    ensures StrnEq(field, s) <==> CompareEqual(field, Terminated(s), 40)
  {
    CompareIs(field, s, |s| + 1);
    CompareIs(field, s, 40);
  }

  function NameOf(e: Entry): CString {
    CStr(e.name)
  }

  /** A record written by add_dir_entry: terminated and not empty. */
  predicate WellNamed(e: Entry) {
    e.name[MAX_FILE_NAME - 1] == 0 && e.name[0] != 0
  }

  /** Reading a field that begins with s and a NUL gives s back. */
  lemma {:induction false} CStrOfPrefix(b: seq<Byte>, s: CString)
    requires |s| < |b| && b[..|s|] == s && b[|s|] == 0
    ensures CStr(b) == s
  {
  }

  /** On a terminated record both C comparisons are equality of strings. */
  lemma ComparisonsAreEquality(e: Entry, s: CString)
    requires WellNamed(e)
    ensures StrnEq(e.name, s) <==> NameOf(e) == s
    ensures StrEq(e.name, s) <==> NameOf(e) == s
    ensures 1 <= |NameOf(e)| < MAX_FILE_NAME
  {
  }

  /** A stored name reads back as its first 39 bytes. */
  lemma NameFieldReads(name: CString)
    ensures CStr(NameField(name)) == name[..Min(|name|, MAX_FILE_NAME - 1)]
    ensures NameField(name)[MAX_FILE_NAME - 1] == 0
    ensures |name| > 0 ==> NameField(name)[0] != 0
  {
    var kept := name[..Min(|name|, MAX_FILE_NAME - 1)];
    assert NameField(name)[..|kept|] == kept;
    CStrOfPrefix(NameField(name), kept);
  }

  // ---------- records in a block ----------

  function Slots(block: seq<Byte>): nat {
    |block| / ENTRY_SIZE
  }

  function EntryAt(block: seq<Byte>, i: nat): Entry
    requires i < Slots(block)
  {
    var a := ENTRY_SIZE * i;
    Entry(block[a..a + MAX_FILE_NAME], DecodeInt(block[a + MAX_FILE_NAME..a + ENTRY_SIZE]))
  }

  /** All the records of a directory block. */
  function Dir(block: seq<Byte>): (d: seq<Entry>)
    ensures |d| == Slots(block)
    ensures forall i :: 0 <= i < |d| ==> d[i] == EntryAt(block, i)
  {
    seq(Slots(block), i requires 0 <= i < Slots(block) => EntryAt(block, i))
  }

  /** Overwrites the bytes from `at` on with `bytes`. */
  function Splice(data: seq<Byte>, at: nat, bytes: seq<Byte>): (r: seq<Byte>)
    requires at + |bytes| <= |data|
    ensures |r| == |data|
    ensures forall k :: 0 <= k < |data| ==> r[k] == if at <= k < at + |bytes| then bytes[k - at] else data[k]
  {
    data[..at] + bytes + data[at + |bytes|..]
  }

  function WriteEntry(block: seq<Byte>, i: nat, e: Entry): (r: seq<Byte>)
    requires i < Slots(block)
    ensures |r| == |block|
  {
    Splice(Splice(block, ENTRY_SIZE * i + MAX_FILE_NAME, EncodeInt(e.inum)), ENTRY_SIZE * i, e.name)
  }

  /** A written record reads back, and every other record still reads as before. */
  lemma WriteEntryReads(block: seq<Byte>, i: nat, e: Entry)
    requires i < Slots(block) && FitsInt(e.inum)
    ensures Dir(WriteEntry(block, i, e)) == Dir(block)[i := e]
  {
    var r := WriteEntry(block, i, e);
    forall j | 0 <= j < Slots(block)
      ensures EntryAt(r, j) == if j == i then e else EntryAt(block, j)
    {
      var a := ENTRY_SIZE * j;
      if j == i {
        assert r[a..a + MAX_FILE_NAME] == e.name;
        assert r[a + MAX_FILE_NAME..a + ENTRY_SIZE] == EncodeInt(e.inum);
        IntRoundTrip(e.inum);
      } else {
        assert r[a..a + MAX_FILE_NAME] == block[a..a + MAX_FILE_NAME];
        assert r[a + MAX_FILE_NAME..a + ENTRY_SIZE] == block[a + MAX_FILE_NAME..a + ENTRY_SIZE];
      }
    }
  }

  /** inode_create labels the first k records empty and leaves their names as they are. */
  function MarkEmpty(block: seq<Byte>, k: nat): (r: seq<Byte>)
    requires k <= Slots(block)
    ensures |r| == |block|
  {
    if k == 0 then block
    else Splice(MarkEmpty(block, k - 1), ENTRY_SIZE * (k - 1) + MAX_FILE_NAME, EncodeInt(NO_INUM))
  }

  lemma {:induction false} MarkEmptyReads(block: seq<Byte>, k: nat)
    requires k <= Slots(block)
    ensures forall j :: 0 <= j < k ==> !Live(Dir(MarkEmpty(block, k))[j])
  {
    if k == 0 {
    } else {
      MarkEmptyReads(block, k - 1);
      IntRoundTrip(NO_INUM);
      var before, after := MarkEmpty(block, k - 1), MarkEmpty(block, k);
      forall j | 0 <= j < k ensures !Live(EntryAt(after, j)) {
        var a := ENTRY_SIZE * j + MAX_FILE_NAME;
        if j == k - 1 {
          assert after[a..a + 4] == EncodeInt(NO_INUM);
        } else {
          assert !Live(Dir(before)[j]) && a + ENTRY_SIZE <= ENTRY_SIZE * (k - 1) + MAX_FILE_NAME;
          assert after[a..a + 4] == before[a..a + 4];
        }
      }
    }
  }

  // ---------- byte by byte ----------

  /** The four bytes of an inumber: its base-256 digits, lowest first, and 255 four times for -1. */
  lemma IntBytes(n: int)
    requires 0 <= n <= 0x7fff_ffff
    ensures EncodeInt(-1) == [255, 255, 255, 255]
    ensures var b := EncodeInt(n);
            var b0: int, b1: int, b2: int, b3: int := b[0], b[1], b[2], b[3];
            n == b0 + 256 * b1 + 65536 * b2 + 16777216 * b3
  {
    IntRoundTrip(n);
  }

  /** A record of 44 bytes: the name and NULs up to byte 40, then the inumber. */
  lemma RecordBytes(block: seq<Byte>, i: nat, name: CString, n: int)
    requires 44 * i + 44 <= |block| && |name| <= 39
    ensures i < Slots(block)
    ensures var r, a := WriteEntry(block, i, Entry(NameField(name), n)), 44 * i;
            && |r| == |block| && r[a..a + |name|] == name && r[a + 40..a + 44] == EncodeInt(n)
            && (forall j :: a + |name| <= j < a + 40 ==> r[j] == 0)
            && (forall j :: 0 <= j < |r| && !(a <= j < a + 44) ==> r[j] == block[j])
  {
    var r, a := WriteEntry(block, i, Entry(NameField(name), n)), 44 * i;
    assert forall j :: 0 <= j < |name| ==> r[a + j] == name[j];
  }

  /** A record is empty exactly when its last four bytes are 255. */
  lemma EmptyBytes(block: seq<Byte>, i: nat)
    requires 44 * i + 44 <= |block|
    ensures i < Slots(block)
    ensures !Live(EntryAt(block, i)) <==> block[44 * i + 40..44 * i + 44] == [255, 255, 255, 255]
  {
    var b := block[44 * i + 40..44 * i + 44];
    assert b == [b[0], b[1], b[2], b[3]];
  }

  lemma MarkStep(block: seq<Byte>, k: nat, j: nat)
    requires 0 < k <= Slots(block) && j < |block|
    ensures var at := 44 * (k - 1) + 40;
            MarkEmpty(block, k)[j] == if at <= j < at + 4 then 255 else MarkEmpty(block, k - 1)[j]
  {
    assert EncodeInt(NO_INUM) == [255, 255, 255, 255];
  }

  /** In a new directory these bytes are set in the first k records, and all others are as they were. */
  lemma {:induction false} MarkedBytes(block: seq<Byte>, k: nat, i: nat, offset: nat)
    requires 44 * k <= |block| && offset < 44 && 44 * i + offset < |block|
    ensures k <= Slots(block)
    ensures MarkEmpty(block, k)[44 * i + offset] == if i < k && offset >= 40 then 255 else block[44 * i + offset]
  {
    if k == 0 {
    } else {
      MarkedBytes(block, k - 1, i, offset);
      MarkStep(block, k, 44 * i + offset);
    }
  }
}
