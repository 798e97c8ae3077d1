/** The part of a POSIX file system that the datastore uses: one directory, whose names stand for
    inodes; descriptors, which stand for inodes too; and the bytes of each inode. Calls succeed in
    full. Numbers of inodes and descriptors are never used again. */
module FileStores {
  import opened Bits
  import opened Decimals

  // The two names that belong to a file id.
  datatype Name = Target(id: nat) | Temp(id: nat)

  function TextOf(n: Name): string {
    match n
    case Target(id) => TargetName(id)
    case Temp(id) => TempName(id)
  }

  /** Names can be told apart by their texts, so they may stand for them. */
  lemma {:induction false} TextsDistinct(m: Name, n: Name)
    requires TextOf(m) == TextOf(n)
    ensures m == n
  {
    match (m, n)
    case (Target(i), Target(j)) => NamesDistinct(i, j);
    case (Target(i), Temp(j)) => NamesDistinct(i, j);
    case (Temp(i), Target(j)) => NamesDistinct(j, i);
    case (Temp(i), Temp(j)) => NamesDistinct(i, j);
  }

  const MAX_DIGITS: nat := 14

  lemma {:induction false} DecimalFits(n: nat, bound: nat, digits: nat)
    requires digits > 0 && n < bound && bound == TenTo(digits)
    ensures |Decimal(n)| <= digits
    decreases digits
  {
    if n >= 10 {
      DecimalFits(n / 10, TenTo(digits - 1), digits - 1);
    }
  }

  function TenTo(n: nat): (p: nat)
    ensures p > 0
  {
    if n == 0 then 1 else 10 * TenTo(n - 1)
  }

  /** Both texts fit the buffer they are formatted in, for every 32-bit id. */
  lemma {:induction false} TextsFit(n: Name)
    requires n.id < 0x1_0000_0000
    ensures |TextOf(n)| < MAX_DIGITS
  {
    assert TenTo(5) == 100000;
    assert TenTo(10) == 10000000000;
    DecimalFits(n.id, TenTo(10), 10);
  }

  // Who opened a descriptor, and for what.
  datatype Role = ReaderOf(who: nat) | TargetOf(who: nat) | TempOf(who: nat) | Creator

  datatype Desc = Desc(inode: nat, role: Role)

  datatype Fs = Fs(names: map<Name, nat>, bytes: map<nat, seq<Byte>>, fds: map<nat, Desc>, nextInode: nat, nextFd: nat)

  // The size of the file a name stands for.
  function SizeOf(fs: Fs, n: Name): nat {
    if n in fs.names && fs.names[n] in fs.bytes then |fs.bytes[fs.names[n]]| else 0
  }

  // A result of open: the descriptor, or -1.
  datatype Opened = Opened(fs: Fs, fd: int)

  // open(O_RDONLY) and open(O_WRONLY)
  function Open(fs: Fs, n: Name, role: Role): Opened {
    if n in fs.names
    then Opened(fs.(fds := fs.fds[fs.nextFd := Desc(fs.names[n], role)], nextFd := fs.nextFd + 1), fs.nextFd)
    else Opened(fs, -1)
  }

  // open(O_CREAT | O_TRUNC | O_WRONLY)
  function OpenTruncated(fs: Fs, n: Name, role: Role): Opened {
    if n in fs.names
    then Open(fs.(bytes := fs.bytes[fs.names[n] := []]), n, role)
    else Open(WithNew(fs, n), n, role)
  }

  // A new empty inode under a name.
  function WithNew(fs: Fs, n: Name): Fs {
    fs.(names := fs.names[n := fs.nextInode], bytes := fs.bytes[fs.nextInode := []], nextInode := fs.nextInode + 1)
  }

  // open(O_CREAT | O_EXCL)
  function OpenExclusive(fs: Fs, n: Name, role: Role): Opened {
    if n in fs.names then Opened(fs, -1) else Open(WithNew(fs, n), n, role)
  }

  // unlink and close, where they do something
  function Unlink(fs: Fs, n: Name): Fs {
    fs.(names := fs.names - {n})
  }

  function Close(fs: Fs, fd: int): Fs {
    fs.(fds := map d | d in fs.fds && d != fd :: fs.fds[d])
  }

  function Rename(fs: Fs, from: Name, to: Name): Fs
    requires from in fs.names
  {
    fs.(names := (fs.names - {from})[to := fs.names[from]])
  }

  // The descriptor is open, so reading and writing succeed.
  predicate IsOpen(fs: Fs, fd: int) {
    fd in fs.fds && fs.fds[fd].inode in fs.bytes
  }

  // What pread reads.
  function Pread(fs: Fs, fd: int, request: nat, position: nat): (data: seq<Byte>)
    requires IsOpen(fs, fd)
    ensures |data| <= request
  {
    Slice(fs.bytes[fs.fds[fd].inode], position, position + request)
  }

  // The bytes from a up to b, as far as there are any.
  function Slice(s: seq<Byte>, a: nat, b: nat): (r: seq<Byte>)
    requires a <= b
    ensures |r| <= b - a
  {
    if a >= |s| then [] else if b >= |s| then s[a..] else s[a..b]
  }

  // What pwrite makes of an inode's bytes; a gap is filled with zeros.
  function Overwritten(s: seq<Byte>, data: seq<Byte>, position: nat): seq<Byte> {
    if data == [] then s
    else
      var front := if position <= |s| then s[..position] else s + seq(position - |s|, _ => 0);
      front + data + (if position + |data| < |s| then s[position + |data|..] else [])
  }

  function Pwrite(fs: Fs, fd: int, data: seq<Byte>, position: nat): Fs
    requires IsOpen(fs, fd)
  {
    var i := fs.fds[fd].inode;
    fs.(bytes := fs.bytes[i := Overwritten(fs.bytes[i], data, position)])
  }

  lemma {:induction false} Appended(s: seq<Byte>, data: seq<Byte>)
    ensures Overwritten(s, data, |s|) == s + data
  {
  }
}
