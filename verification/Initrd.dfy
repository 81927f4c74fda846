/** The initial ramdisk: mkfs.py writes the archive, fs/initrd.c parses it in place and serves it. */
module Initrd {
  import opened CString

  const MAX_FILES: nat := 64
  /** 'O' 'R' 'B' 'T' */
  const MAGIC: seq<Byte> := [79, 82, 66, 84]

  datatype File = File(name: seq<Byte>, data: seq<Byte>)

  // ---------------------------------------------------------------- little-endian words

  function Pack(v: nat): (s: seq<Byte>)
    requires v < 0x1_0000_0000
    ensures |s| == 4
  {
    [v % 0x100, v / 0x100 % 0x100, v / 0x1_0000 % 0x100, v / 0x100_0000]
  }

  function Unpack(s: seq<Byte>): (v: nat)
    requires |s| == 4
    ensures v < 0x1_0000_0000
  {
    var a: nat, b: nat, c: nat, d: nat := s[0], s[1], s[2], s[3];
    a + 0x100 * b + 0x1_0000 * c + 0x100_0000 * d
  }

  lemma UnpackPack(v: nat)
    requires v < 0x1_0000_0000
    ensures Unpack(Pack(v)) == v
  {
    var a := v / 0x100;
    var b := a / 0x100;
    assert v / 0x1_0000 == b && v / 0x100_0000 == b / 0x100;
  }

  // ---------------------------------------------------------------- the archive

  function Zeros(n: nat): (s: seq<Byte>)
    ensures |s| == n && forall i :: 0 <= i < n ==> s[i] == 0
  {
    if n == 0 then [] else Zeros(n - 1) + [0]
  }

  /** A name cut to 63 bytes, and as the 64-byte field holds it. */
  function Short(name: seq<Byte>): (s: seq<Byte>)
    ensures s <= name && |s| <= 63 && (|s| == 63 || s == name)
  {
    Take(name, 63)
  }

  function Padded(name: seq<Byte>): (s: seq<Byte>)
    ensures |s| == 64
  {
    Short(name) + Zeros(64 - |Short(name)|)
  }

  /** Where the data of file i starts: after the headers and the data of the files before it. */
  function Start(files: seq<File>, i: nat): nat
    requires i <= |files|
  {
    if i == 0 then 8 + 72 * |files| else Start(files, i - 1) + |files[i - 1].data|
  }

  function Header(f: File, start: nat): (s: seq<Byte>)
    requires start < 0x1_0000_0000 && |f.data| < 0x1_0000_0000
    ensures |s| == 72
  {
    Padded(f.name) + Pack(start) + Pack(|f.data|)
  }

  /** The archive stays below 4 GiB, as offsets in 32 bits need. */
  predicate Fits(files: seq<File>) {
    Start(files, |files|) < 0x1_0000_0000
  }

  lemma {:induction false} StartGrows(files: seq<File>, i: nat, j: nat)
    requires i <= j <= |files|
    ensures 8 + 72 * |files| <= Start(files, i) <= Start(files, j)
    ensures i < j ==> Start(files, i) + |files[i].data| <= Start(files, j)
    decreases j
  {
    if i < j {
      StartGrows(files, i, j - 1);
    } else if j > 0 {
      StartGrows(files, 0, j - 1);
    }
  }

  function Headers(files: seq<File>, k: nat): (s: seq<Byte>)
    requires k <= |files| && Fits(files)
    ensures |s| == 72 * k
  {
    if k == 0 then [] else
      StartGrows(files, k - 1, |files|);
      Headers(files, k - 1) + Header(files[k - 1], Start(files, k - 1))
  }

  function Contents(files: seq<File>, k: nat): (s: seq<Byte>)
    requires k <= |files|
    ensures |s| == Start(files, k) - Start(files, 0)
  {
    if k == 0 then [] else Contents(files, k - 1) + files[k - 1].data
  }

  function Archive(files: seq<File>): (s: seq<Byte>)
    requires Fits(files)
    ensures |s| == Start(files, |files|)
  {
    StartGrows(files, 0, |files|);
    MAGIC + Pack(|files|) + Headers(files, |files|) + Contents(files, |files|)
  }

  /** mkfs.py: magic, count, a header a file with the running offset, then the data. */
  method MkFs(files: seq<File>) returns (out: seq<Byte>)
    requires Fits(files)
    ensures out == Archive(files)
  {
    StartGrows(files, 0, |files|);
    out := MAGIC;
    out := out + Pack(|files|);
    var headerSize := 8 + |files| * (64 + 4 + 4);
    var currentOffset := headerSize;
    ghost var top := out;
    for i := 0 to |files|
      invariant currentOffset == Start(files, i) && out == top + Headers(files, i)
    {
      StartGrows(files, i, |files|);
      var name, data := files[i].name, files[i].data;
      var cut := if |name| > 63 then name[..63] else name;
      ghost var before := out;
      out := WriteHeader(out, cut, currentOffset, |data|);
      assert out == before + Header(files[i], Start(files, i));
      HeadersNext(top, files, i, before, out);
      currentOffset := currentOffset + |data|;
    }
    out := WriteData(out, files);
  }

  lemma HeadersNext(top: seq<Byte>, files: seq<File>, i: nat, before: seq<Byte>, out: seq<Byte>)
    requires i < |files| && Fits(files) && Start(files, i) < 0x1_0000_0000 && |files[i].data| < 0x1_0000_0000
    requires before == top + Headers(files, i) && out == before + Header(files[i], Start(files, i))
    ensures out == top + Headers(files, i + 1)
  {}

  method WriteData(head: seq<Byte>, files: seq<File>) returns (out: seq<Byte>)
    ensures out == head + Contents(files, |files|)
  {
    out := head;
    for i := 0 to |files|
      invariant out == head + Contents(files, i)
    {
      out := out + files[i].data;
    }
  }

  method WriteHeader(out: seq<Byte>, cut: seq<Byte>, offset: nat, length: nat) returns (out': seq<Byte>)
    requires |cut| <= 63 && offset < 0x1_0000_0000 && length < 0x1_0000_0000
    ensures out' == out + (cut + Zeros(64 - |cut|) + Pack(offset) + Pack(length))
  {
    out' := out + (cut + Zeros(64 - |cut|));
    out' := out' + Pack(offset);
    out' := out' + Pack(length);
  }

  lemma {:induction false} HeaderAt(files: seq<File>, k: nat, i: nat)
    requires i < k <= |files| && Fits(files) && Start(files, i) < 0x1_0000_0000 && |files[i].data| < 0x1_0000_0000
    ensures Headers(files, k)[72 * i..72 * i + 72] == Header(files[i], Start(files, i))
    decreases k
  {
    if i < k - 1 {
      HeaderAt(files, k - 1, i);
      assert Headers(files, k)[72 * i..72 * i + 72] == Headers(files, k - 1)[72 * i..72 * i + 72];
    }
  }

  lemma {:induction false} ContentsAt(files: seq<File>, k: nat, i: nat)
    requires i < k <= |files|
    ensures var o := Start(files, i) - Start(files, 0);
      0 <= o && o + |files[i].data| <= |Contents(files, k)|
      && Contents(files, k)[o..o + |files[i].data|] == files[i].data
    decreases k
  {
    StartGrows(files, 0, i);
    StartGrows(files, i, k);
    var before, o, n := Contents(files, k - 1), Start(files, i) - Start(files, 0), |files[i].data|;
    if i < k - 1 {
      ContentsAt(files, k - 1, i);
      assert (before + files[k - 1].data)[o..o + n] == before[o..o + n];
    } else {
      assert (before + files[i].data)[|before|..] == files[i].data;
    }
  }

  /** The four bytes at p are v, least significant first. */
  predicate Little(a: seq<Byte>, p: nat, v: nat) {
    p + 4 <= |a| && (a[p] as int) + (a[p + 1] as int) * 0x100 + (a[p + 2] as int) * 0x1_0000
                    + (a[p + 3] as int) * 0x100_0000 == v
  }

  /** The archive's first bytes: "ORBT", and the number of files. */
  lemma ArchiveTop(files: seq<File>)
    requires Fits(files)
    ensures var a := Archive(files);
      && |a| >= 8 && (forall j :: 0 <= j < 4 ==> a[j] == "ORBT"[j] as int) && Little(a, 4, |files|)
      && Start(files, 0) == 8 + 72 * |files| && |a| == Start(files, |files|)
  {
    StartGrows(files, 0, |files|);
    var a := Archive(files);
    assert a[..4] == MAGIC && a[4..8] == Pack(|files|);
    assert forall j :: 0 <= j < 4 ==> a[j] == a[..4][j];
    LittleIs(a, 4, 8, |files|);
  }

  /** The archive, byte by byte: at 8 + 72 i the first 63 bytes of file i's name, filled up with NULs to 64, then its
    * offset and its length; and at that offset its bytes, behind those of the file before. */
  lemma ArchiveEntry(files: seq<File>, i: nat, h: nat, f: File)
    requires Fits(files) && i < |files| && h == 8 + 72 * i && f == files[i]
    ensures var a, o := Archive(files), Start(files, i);
      && h + 72 <= |a| && o + |f.data| <= |a|
      && (forall j :: 0 <= j < 64 ==> a[h + j] == if j < |f.name| && j < 63 then f.name[j] else 0)
      && Little(a, h + 64, o) && Little(a, h + 68, |f.data|)
      && (forall j :: 0 <= j < |f.data| ==> a[o + j] == f.data[j])
      && Start(files, i + 1) == o + |f.data|
  {
    var a, o := Archive(files), Start(files, i);
    ArchiveHeader(files, i, h, h + 72);
    ArchiveData(files, i, o, o + |f.data|);
    EntryBytes(a, h, f, o);
    SliceBytes(a, o, o + |f.data|, f.data);
  }

  lemma SliceBytes(a: seq<Byte>, lo: nat, hi: nat, data: seq<Byte>)
    requires lo <= hi <= |a| && a[lo..hi] == data
    ensures forall j :: 0 <= j < |data| ==> a[lo + j] == data[j]
  {
    assert forall j :: 0 <= j < |data| ==> a[lo..hi][j] == a[lo + j];
  }

  lemma EntryBytes(a: seq<Byte>, h: nat, f: File, o: nat)
    requires o < 0x1_0000_0000 && |f.data| < 0x1_0000_0000 && h + 72 <= |a| && a[h..h + 72] == Header(f, o)
    ensures forall j :: 0 <= j < 64 ==> a[h + j] == if j < |f.name| && j < 63 then f.name[j] else 0
    ensures Little(a, h + 64, o) && Little(a, h + 68, |f.data|)
  {
    var s := Header(f, o);
    assert s[0..64] == Padded(f.name) && s[64..68] == Pack(o) && s[68..72] == Pack(|f.data|);
    SliceOf(a, h, s, 0, 64, h, h + 64);
    SliceOf(a, h, s, 64, 68, h + 64, h + 68);
    SliceOf(a, h, s, 68, 72, h + 68, h + 72);
    LittleIs(a, h + 64, h + 68, o);
    LittleIs(a, h + 68, h + 72, |f.data|);
    SliceBytes(a, h, h + 64, Padded(f.name));
  }

  lemma LittleIs(a: seq<Byte>, p: nat, e: nat, v: nat)
    requires e == p + 4 <= |a| && v < 0x1_0000_0000 && a[p..e] == Pack(v)
    ensures Little(a, p, v)
  {
    UnpackPack(v);
    assert forall j :: 0 <= j < 4 ==> a[p..e][j] == a[p + j];
  }

  /** The data ranges lie one after the other from the last header to the archive's end, so every byte there belongs
    * to exactly one file's range. */
  lemma {:induction false} RangesTile(files: seq<File>, k: nat, o: nat) returns (i: nat)
    requires k <= |files| && Start(files, 0) <= o < Start(files, k)
    ensures i < k && Start(files, i) <= o < Start(files, i + 1) == Start(files, i) + |files[i].data|
    ensures forall j: nat :: j < k && Start(files, j) <= o < Start(files, j) + |files[j].data| ==> j == i
    decreases k
  {
    if o >= Start(files, k - 1) {
      i := k - 1;
    } else {
      i := RangesTile(files, k - 1, o);
    }
    forall j: nat | j < k && Start(files, j) <= o < Start(files, j) + |files[j].data|
      ensures j == i
    {
      if j < i {
        StartGrows(files, j, i);
      } else if i < j {
        StartGrows(files, i, j);
      }
    }
  }

  // ---------------------------------------------------------------- the reader

  /** What an fs_node_t keeps of a file; impl is the address of its data. */
  datatype Node = Node(name: seq<Byte>, inode: nat, length: nat, impl: nat)

  function HeaderAddress(location: nat, i: nat): nat {
    location + 8 + 72 * i
  }

  function Word(mem: seq<Byte>, a: nat): nat
    requires a + 4 <= |mem|
  {
    Unpack(mem[a..a + 4])
  }

  /** The node for header i of an archive at location. */
  function NodeAt(mem: seq<Byte>, location: nat, i: nat): Node
    requires HeaderAddress(location, i) + 72 <= |mem|
  {
    var h := HeaderAddress(location, i);
    Node(Str(mem[h..h + 64]), i, Word(mem, h + 68), (location + Word(mem, h + 64)) % 0x1_0000_0000)
  }

  /** How many of n files are served: all up to 64. */
  function Cap(n: nat): (c: nat)
    ensures c <= n && c <= 64 && (c == 64 || c == n)
  {
    if n > MAX_FILES then MAX_FILES else n
  }

  /** The headers that are going to be read lie in memory, and their names are terminated. */
  predicate Readable(mem: seq<Byte>, location: nat) {
    && location + 8 <= |mem| <= 0x1_0000_0000
    && HeaderAddress(location, Cap(Word(mem, location + 4))) <= |mem|
    && forall i :: 0 <= i < Cap(Word(mem, location + 4)) ==>
         0 in mem[HeaderAddress(location, i)..HeaderAddress(location, i) + 64]
  }

  /** The first node with exactly this name; the number of nodes when there is none. */
  function FirstNamed(names: seq<seq<Byte>>, name: seq<Byte>): (i: nat)
    ensures i <= |names| && (i < |names| ==> names[i] == name)
    ensures forall j :: 0 <= j < i ==> names[j] != name
  {
    if names == [] || names[0] == name then 0 else 1 + FirstNamed(names[1..], name)
  }

  lemma FirstIs(names: seq<seq<Byte>>, name: seq<Byte>, i: nat)
    requires i <= |names| && (i < |names| ==> names[i] == name) && forall j :: 0 <= j < i ==> names[j] != name
    ensures FirstNamed(names, name) == i
  {}

  /** The bytes a read delivers: nothing past the end, and no more than is left. */
  function ReadSpec(mem: seq<Byte>, node: Node, offset: nat, size: nat): (r: seq<Byte>)
    requires node.impl + node.length <= |mem|
    ensures |r| <= size && (|r| == size || offset + |r| >= node.length)
    ensures offset + |r| <= node.length || r == []
    ensures forall j :: 0 <= j < |r| ==> r[j] == mem[node.impl + offset + j]
  {
    if offset >= node.length then []
    else
      var n := if offset + size > node.length then node.length - offset else size;
      mem[node.impl + offset..node.impl + offset + n]
  }

  class Disk {
    const mem: seq<Byte>
    const nodes: array<Node>
    var numFiles: nat

    constructor (mem: seq<Byte>)
      ensures this.mem == mem && nodes.Length == MAX_FILES && fresh(nodes) && numFiles == 0
    {
      this.mem := mem;
      nodes := new Node[MAX_FILES](_ => Node([], 0, 0, 0));
      numFiles := 0;
    }

    ghost function Names(): seq<seq<Byte>>
      reads this, nodes
      requires numFiles <= nodes.Length
    {
      seq(numFiles, i requires 0 <= i < numFiles <= nodes.Length reads this, nodes => nodes[i].name)
    }

    /** initrd_initialize. Without the magic number nothing is mounted. */
    method Initialize(location: nat)
      requires nodes.Length == MAX_FILES && location + 8 <= |mem|
      requires mem[location..location + 4] == MAGIC ==> Readable(mem, location)
      modifies this, nodes
      ensures mem[location..location + 4] != MAGIC ==> numFiles == old(numFiles) && nodes[..] == old(nodes[..])
      ensures mem[location..location + 4] == MAGIC ==>
        && numFiles == Cap(Word(mem, location + 4))
        && forall i :: 0 <= i < numFiles ==> nodes[i] == NodeAt(mem, location, i)
    {
      if Word(mem, location) != 0x5442_524F {
        assert Unpack(MAGIC) == 0x5442_524F;
        return;
      }
      MagicWord(mem[location..location + 4]);
      numFiles := Word(mem, location + 4);
      if numFiles > MAX_FILES {
        numFiles := MAX_FILES;
      }
      for i := 0 to numFiles
        invariant numFiles == Cap(Word(mem, location + 4))
        invariant forall j :: 0 <= j < i ==> nodes[j] == NodeAt(mem, location, j)
      {
        nodes[i] := LoadHeader(location, i);
      }
    }

    method LoadHeader(location: nat, i: nat) returns (node: Node)
      requires HeaderAddress(location, i) + 72 <= |mem|
      requires 0 in mem[HeaderAddress(location, i)..HeaderAddress(location, i) + 64]
      ensures node == NodeAt(mem, location, i)
    {
      var h := HeaderAddress(location, i);
      var name := mem[h..h + 64];
      var n := StrLen(name);
      var length, offset := Word(mem, h + 68), Word(mem, h + 64);
      node := Node(name[..n], i, length, (location + offset) % 0x1_0000_0000);
    }

    /** initrd_read */
    method Read(node: Node, offset: nat, size: nat, buffer: array<Byte>) returns (n: nat)
      requires node.impl + node.length <= |mem| && offset + size < 0x1_0000_0000
      requires |ReadSpec(mem, node, offset, size)| <= buffer.Length
      modifies buffer
      ensures n == |ReadSpec(mem, node, offset, size)| && buffer[..n] == ReadSpec(mem, node, offset, size)
      ensures forall j :: n <= j < buffer.Length ==> buffer[j] == old(buffer[j])
    {
      if offset >= node.length {
        return 0;
      }
      n := size;
      if (offset + size) % 0x1_0000_0000 > node.length {
        n := node.length - offset;
      }
      MemCpy(buffer, mem[node.impl + offset..], n);
    }

    /** initrd_finddir: the index stands for the node's address, None for null. */
    method FindDir(name: seq<Byte>) returns (i: nat, found: bool)
      requires numFiles <= nodes.Length && 0 in name
      requires forall j :: 0 <= j < numFiles ==> NoNul(nodes[j].name)
      ensures i == FirstNamed(Names(), Str(name)) && found == (i < numFiles)
    {
      i := 0;
      while i < numFiles
        invariant i <= numFiles
        invariant forall j :: 0 <= j < i ==> nodes[j].name != Str(name)
      {
        StrIs(nodes[i].name + [0], nodes[i].name);
        var r := StrCmp(nodes[i].name + [0], name);
        CompareDecides(nodes[i].name, Str(name));
        if r == 0 {
          FirstIs(Names(), Str(name), i);
          return i, true;
        }
        i := i + 1;
      }
      FirstIs(Names(), Str(name), i);
      found := false;
    }

    /** initrd_readdir */
    method ReadDir(index: nat) returns (name: seq<Byte>, ino: nat, some: bool)
      requires numFiles <= nodes.Length
      ensures some == (index < numFiles)
      ensures some ==> name == nodes[index].name && ino == nodes[index].inode
    {
      if index >= numFiles {
        return [], 0, false;
      }
      return nodes[index].name, nodes[index].inode, true;
    }
  }

  lemma MagicWord(s: seq<Byte>)
    requires |s| == 4 && Unpack(s) == 0x5442_524F
    ensures s == MAGIC
  {}

  // ---------------------------------------------------------------- round trip

  /** The archive of these files lies at location, and ends below 4 GiB. */
  predicate Mounted(mem: seq<Byte>, location: nat, files: seq<File>)
    requires Fits(files)
  {
    location + |Archive(files)| <= |mem| <= 0x1_0000_0000 && location + |Archive(files)| < 0x1_0000_0000
    && mem[location..location + |Archive(files)|] == Archive(files)
  }

  /** A slice of a slice. */
  lemma SliceOf(mem: seq<Byte>, at: nat, a: seq<Byte>, i: nat, j: nat, lo: nat, hi: nat)
    requires at + |a| <= |mem| && mem[at..at + |a|] == a && i <= j <= |a| && lo == at + i && hi == at + j
    ensures mem[lo..hi] == a[i..j]
  {
    forall k | 0 <= k < j - i
      ensures mem[lo..hi][k] == a[i..j][k]
    {
      assert a[i + k] == mem[at..at + |a|][i + k];
    }
  }

  /** The parts of an archive, by offset. */
  lemma ArchiveHeader(files: seq<File>, i: nat, lo: nat, hi: nat)
    requires Fits(files) && i < |files| && lo == 8 + 72 * i && hi == lo + 72
    ensures Start(files, i) < 0x1_0000_0000 && |files[i].data| < 0x1_0000_0000
    ensures hi <= Start(files, 0) <= |Archive(files)|
    ensures Archive(files)[lo..hi] == Header(files[i], Start(files, i))
  {
    var n, h := |files|, Headers(files, |files|);
    StartGrows(files, 0, n);
    StartGrows(files, i, n);
    HeaderAt(files, n, i);
    var top, rest := MAGIC + Pack(n), Contents(files, n);
    assert Archive(files) == top + h + rest;
    MiddleSlice(top, h, rest, 72 * i, 72 * i + 72, lo, hi);
  }

  lemma MiddleSlice(a: seq<Byte>, b: seq<Byte>, c: seq<Byte>, i: nat, j: nat, lo: nat, hi: nat)
    requires i <= j <= |b| && lo == |a| + i && hi == |a| + j
    ensures (a + b + c)[lo..hi] == b[i..j]
  {
    assert (a + b + c)[|a|..|a| + |b|] == b;
    SliceOf(a + b + c, |a|, b, i, j, lo, hi);
  }

  lemma ArchiveData(files: seq<File>, i: nat, lo: nat, hi: nat)
    requires Fits(files) && i < |files| && lo == Start(files, i) && hi == lo + |files[i].data|
    ensures hi <= |Archive(files)| && Archive(files)[lo..hi] == files[i].data
  {
    var front := ArchiveFront(files);
    var data, o := files[i].data, Start(files, i) - Start(files, 0);
    StartGrows(files, 0, i);
    StartGrows(files, i, |files|);
    ContentsAt(files, |files|, i);
    TailSlice(front, Contents(files, |files|), o, o + |data|, lo, hi);
  }

  lemma ArchiveFront(files: seq<File>) returns (front: seq<Byte>)
    requires Fits(files)
    ensures |front| == Start(files, 0) && Archive(files) == front + Contents(files, |files|)
  {
    StartGrows(files, 0, |files|);
    front := MAGIC + Pack(|files|) + Headers(files, |files|);
  }

  lemma TailSlice(a: seq<Byte>, b: seq<Byte>, i: nat, j: nat, lo: nat, hi: nat)
    requires i <= j <= |b| && lo == |a| + i && hi == |a| + j
    ensures (a + b)[lo..hi] == b[i..j]
  {
    assert a + b == a + b + [];
    MiddleSlice(a, b, [], i, j, lo, hi);
  }

  /** The fields of a header, by offset. */
  lemma HeaderParts(f: File, start: nat)
    requires start < 0x1_0000_0000 && |f.data| < 0x1_0000_0000 && NoNul(f.name)
    ensures var s := Header(f, start);
      && 0 in s[..64] && Str(s[..64]) == Short(f.name)
      && Unpack(s[64..68]) == start && Unpack(s[68..72]) == |f.data|
  {
    var s := Header(f, start);
    assert s[..64] == Padded(f.name) && s[64..68] == Pack(start) && s[68..72] == Pack(|f.data|);
    UnpackPack(start);
    UnpackPack(|f.data|);
    var short := Short(f.name);
    assert s[..64][|short|] == 0;
    StrIs(s[..64], short);
  }

  /** A mounted archive has the magic number and the file count. */
  lemma MountedTop(mem: seq<Byte>, location: nat, files: seq<File>)
    requires Fits(files) && Mounted(mem, location, files)
    ensures location + 8 <= |mem| && mem[location..location + 4] == MAGIC && Word(mem, location + 4) == |files|
  {
    var a := Archive(files);
    StartGrows(files, 0, |files|);
    SliceOf(mem, location, a, 0, 4, location, location + 4);
    SliceOf(mem, location, a, 4, 8, location + 4, location + 8);
    assert a[0..4] == MAGIC && a[4..8] == Pack(|files|);
    UnpackPack(|files|);
  }

  /** Memory holds these bytes at this address. */
  predicate HoldsAt(mem: seq<Byte>, at: nat, data: seq<Byte>) {
    at + |data| <= |mem| && mem[at..at + |data|] == data
  }

  /** Round trip: what mkfs wrote, the kernel finds. Node i has file i's name cut to 63 bytes and its length, and the
    * bytes it points at are file i's. */
  lemma RoundTrip(mem: seq<Byte>, location: nat, files: seq<File>, i: nat)
    requires Fits(files) && Mounted(mem, location, files) && i < |files| && NoNul(files[i].name)
    ensures HeaderAddress(location, i) + 72 <= |mem|
    ensures NodeAt(mem, location, i) == Node(Short(files[i].name), i, |files[i].data|, location + Start(files, i))
    ensures HoldsAt(mem, location + Start(files, i), files[i].data)
    ensures 0 in mem[HeaderAddress(location, i)..HeaderAddress(location, i) + 64]
  {
    var impl := location + Start(files, i);
    MountedFile(mem, location, files, i, impl, files[i].data);
    MountedNode(mem, location, files, i, impl, HeaderAddress(location, i));
  }

  lemma MountedFile(mem: seq<Byte>, location: nat, files: seq<File>, i: nat, impl: nat, data: seq<Byte>)
    requires Fits(files) && Mounted(mem, location, files) && i < |files|
    requires impl == location + Start(files, i) && data == files[i].data
    ensures HoldsAt(mem, impl, data) && impl < 0x1_0000_0000
  {
    MountedData(mem, location, files, i, impl, impl + |data|);
  }

  lemma MountedNode(mem: seq<Byte>, location: nat, files: seq<File>, i: nat, impl: nat, h: nat)
    requires Fits(files) && Mounted(mem, location, files) && i < |files| && NoNul(files[i].name)
    requires h == HeaderAddress(location, i) && impl == location + Start(files, i) && impl < 0x1_0000_0000
    ensures h + 72 <= |mem| && 0 in mem[h..h + 64]
    ensures NodeAt(mem, location, i) == Node(Short(files[i].name), i, |files[i].data|, impl)
  {
    MountedHeader(mem, location, files, i, h);
    HeaderRead(mem, location, i, files[i], Start(files, i), impl, h);
  }

  lemma MountedHeader(mem: seq<Byte>, location: nat, files: seq<File>, i: nat, h: nat)
    requires Fits(files) && Mounted(mem, location, files) && i < |files| && h == HeaderAddress(location, i)
    ensures Start(files, i) < 0x1_0000_0000 && |files[i].data| < 0x1_0000_0000 && h + 72 <= |mem|
    ensures mem[h..h + 72] == Header(files[i], Start(files, i))
  {
    var lo := 8 + 72 * i;
    ArchiveHeader(files, i, lo, lo + 72);
    MountedSlice(mem, location, files, lo, lo + 72, h, h + 72, Header(files[i], Start(files, i)));
  }

  lemma MountedSlice(mem: seq<Byte>, location: nat, files: seq<File>, i: nat, j: nat, lo: nat, hi: nat, part: seq<Byte>)
    requires Fits(files) && Mounted(mem, location, files)
    requires i <= j <= |Archive(files)| && Archive(files)[i..j] == part && lo == location + i && hi == location + j
    ensures hi <= |mem| && mem[lo..hi] == part
  {
    SliceOf(mem, location, Archive(files), i, j, lo, hi);
  }

  lemma MountedData(mem: seq<Byte>, location: nat, files: seq<File>, i: nat, lo: nat, hi: nat)
    requires Fits(files) && Mounted(mem, location, files) && i < |files|
    requires lo == location + Start(files, i) && hi == lo + |files[i].data|
    ensures hi <= |mem| && mem[lo..hi] == files[i].data && lo < 0x1_0000_0000
  {
    var o := Start(files, i);
    ArchiveData(files, i, o, o + |files[i].data|);
    MountedSlice(mem, location, files, o, o + |files[i].data|, lo, hi, files[i].data);
  }

  lemma HeaderRead(mem: seq<Byte>, location: nat, i: nat, f: File, start: nat, impl: nat, h: nat)
    requires impl == location + start < 0x1_0000_0000
    requires start < 0x1_0000_0000 && |f.data| < 0x1_0000_0000 && NoNul(f.name)
    requires h == HeaderAddress(location, i) && h + 72 <= |mem| && mem[h..h + 72] == Header(f, start)
    ensures NodeAt(mem, location, i) == Node(Short(f.name), i, |f.data|, impl)
    ensures 0 in mem[h..h + 64]
  {
    var s := Header(f, start);
    HeaderParts(f, start);
    SliceOf(mem, h, s, 0, 64, h, h + 64);
    SliceOf(mem, h, s, 64, 68, h + 64, h + 68);
    SliceOf(mem, h, s, 68, 72, h + 68, h + 72);
    assert s[0..64] == s[..64];
    WordIs(mem, h + 64, h + 68, start);
    WordIs(mem, h + 68, h + 72, |f.data|);
    NodeIs(mem, location, i, h, Short(f.name), start, |f.data|, impl);
  }

  lemma NodeIs(mem: seq<Byte>, location: nat, i: nat, h: nat, name: seq<Byte>, start: nat, length: nat, impl: nat)
    requires h == HeaderAddress(location, i) && h + 72 <= |mem| && impl == location + start < 0x1_0000_0000
    requires Str(mem[h..h + 64]) == name && Word(mem, h + 64) == start && Word(mem, h + 68) == length
    ensures NodeAt(mem, location, i) == Node(name, i, length, impl)
  {}

  lemma WordIs(mem: seq<Byte>, a: nat, e: nat, v: nat)
    requires e == a + 4 <= |mem| && Unpack(mem[a..e]) == v
    ensures Word(mem, a) == v
  {}

  /** A mounted archive can be parsed, whatever the number of files; beyond 64 only the first 64 are served. */
  lemma MountedIsReadable(mem: seq<Byte>, location: nat, files: seq<File>)
    requires Fits(files) && Mounted(mem, location, files)
    requires forall i :: 0 <= i < |files| ==> NoNul(files[i].name)
    ensures Readable(mem, location)
  {
    MountedTop(mem, location, files);
    StartGrows(files, 0, |files|);
    forall i: nat | i < Cap(|files|)
      ensures 0 in mem[HeaderAddress(location, i)..HeaderAddress(location, i) + 64]
    {
      RoundTrip(mem, location, files, i);
    }
  }

  function ShortNames(files: seq<File>): (names: seq<seq<Byte>>)
    ensures |names| == Cap(|files|) && forall i :: 0 <= i < |names| ==> names[i] == Short(files[i].name)
  {
    seq(Cap(|files|), i requires 0 <= i < |files| => Short(files[i].name))
  }

  /** With names distinct after cutting, looking a served file up by its cut name finds it, and reading it whole
    * delivers its bytes. */
  lemma FoundAndRead(mem: seq<Byte>, location: nat, files: seq<File>, i: nat)
    requires Fits(files) && Mounted(mem, location, files) && i < Cap(|files|)
    requires forall j :: 0 <= j < |files| ==> NoNul(files[j].name)
    requires forall j, l :: 0 <= j < l < Cap(|files|) ==> Short(files[j].name) != Short(files[l].name)
    ensures FirstNamed(ShortNames(files), Short(files[i].name)) == i
    ensures HeaderAddress(location, i) + 72 <= |mem|
    ensures var node := NodeAt(mem, location, i);
      node.impl + node.length <= |mem| && ReadSpec(mem, node, 0, node.length) == files[i].data
  {
    RoundTrip(mem, location, files, i);
    FirstIs(ShortNames(files), Short(files[i].name), i);
  }

  /** What initrd_initialize leaves of a mounted archive: the names looked up by initrd_finddir are the files' names
    * cut to 63 bytes, in the archive's order. */
  lemma ServedNames(disk: Disk, location: nat, files: seq<File>)
    requires Fits(files) && Mounted(disk.mem, location, files) && disk.nodes.Length == MAX_FILES
    requires forall i :: 0 <= i < |files| ==> NoNul(files[i].name)
    requires disk.numFiles == Cap(|files|) && HeaderAddress(location, Cap(|files|)) <= |disk.mem|
    requires forall i :: 0 <= i < disk.numFiles ==> disk.nodes[i] == NodeAt(disk.mem, location, i)
    ensures disk.Names() == ShortNames(files)
    ensures forall i :: 0 <= i < disk.numFiles ==> NoNul(disk.nodes[i].name)
  {
    forall i: nat | i < disk.numFiles
      ensures disk.nodes[i].name == Short(files[i].name) && NoNul(disk.nodes[i].name)
    {
      RoundTrip(disk.mem, location, files, i);
    }
  }

  /** The ls loop: directory entries from index 0 on until there is none, each looked up by its name. The list is that
    * of all names, in order, and every look-up finds a node. */
  method ListFiles(disk: Disk) returns (names: seq<seq<Byte>>)
    requires disk.numFiles <= disk.nodes.Length
    requires forall j :: 0 <= j < disk.numFiles ==> NoNul(disk.nodes[j].name)
    ensures names == disk.Names()
  {
    names := [];
    var i := 0;
    var name, ino, some := disk.ReadDir(i);
    while some
      invariant i <= disk.numFiles && some == (i < disk.numFiles) && (some ==> name == disk.nodes[i].name)
      invariant names == disk.Names()[..i]
      decreases disk.numFiles - i
    {
      StrIs(name + [0], name);
      var at, found := disk.FindDir(name + [0]);
      assert disk.Names()[i] == name;
      assert found;
      if found {
        names := names + [name];
      }
      i := i + 1;
      name, ino, some := disk.ReadDir(i);
    }
  }

  lemma MountedAt(before: seq<Byte>, out: seq<Byte>, after: seq<Byte>, files: seq<File>)
    requires Fits(files) && out == Archive(files) && |before| + |out| < 0x1_0000_0000
    requires |before| + |out| + |after| <= 0x1_0000_0000
    ensures Mounted(before + out + after, |before|, files)
  {
    assert (before + out + after)[|before|..|before| + |out|] == out;
  }

  /** The whole way: mkfs writes the archive, the boot loader puts it somewhere in memory, the kernel mounts it, looks a
    * file up by its name and reads it whole. The caller's buffer then holds the file. */
  method Fetch(files: seq<File>, before: seq<Byte>, after: seq<Byte>, i: nat, buffer: array<Byte>) returns (n: nat)
    requires Fits(files) && |before| + Start(files, |files|) < 0x1_0000_0000
    requires |before| + Start(files, |files|) + |after| <= 0x1_0000_0000
    requires i < Cap(|files|) && |files[i].data| <= buffer.Length
    requires forall j :: 0 <= j < |files| ==> NoNul(files[j].name)
    requires forall j, l :: 0 <= j < l < Cap(|files|) ==> Short(files[j].name) != Short(files[l].name)
    modifies buffer
    ensures n == |files[i].data| && buffer[..n] == files[i].data
  {
    var out := MkFs(files);
    var disk := new Disk(before + out + after);
    ghost var location := |before|;
    MountedAt(before, out, after, files);
    MountedTop(disk.mem, location, files);
    MountedIsReadable(disk.mem, location, files);
    disk.Initialize(|before|);
    n := ReadNamed(disk, location, files, i, buffer);
  }

  /** With an archive mounted, a file is looked up by its name as stored and read whole. */
  method ReadNamed(disk: Disk, ghost location: nat, files: seq<File>, i: nat, buffer: array<Byte>) returns (n: nat)
    requires Fits(files) && Mounted(disk.mem, location, files) && disk.nodes.Length == MAX_FILES
    requires disk.numFiles == Cap(|files|) && HeaderAddress(location, Cap(|files|)) <= |disk.mem|
    requires forall j :: 0 <= j < disk.numFiles ==> disk.nodes[j] == NodeAt(disk.mem, location, j)
    requires forall j :: 0 <= j < |files| ==> NoNul(files[j].name)
    requires forall j, l :: 0 <= j < l < Cap(|files|) ==> Short(files[j].name) != Short(files[l].name)
    requires i < Cap(|files|) && |files[i].data| <= buffer.Length
    modifies buffer
    ensures n == |files[i].data| && buffer[..n] == files[i].data
  {
    ServedNames(disk, location, files);
    FoundAndRead(disk.mem, location, files, i);
    var name := files[i].name;
    var short := if |name| > 63 then name[..63] else name;
    StrIs(short + [0], short);
    var at, found := disk.FindDir(short + [0]);
    var node := disk.nodes[at];
    n := disk.Read(node, 0, node.length, buffer);
  }
}
