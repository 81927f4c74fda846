/** The shell's cat: a file printed in chunks of at most 255 bytes. */
module Cat {
  import opened CString
  import opened Terminal
  import opened Initrd

  function ChunkSize(n: nat): nat {
    if n > 255 then 255 else n
  }

  /** What reaches the terminal: of every chunk, what comes before its first NUL. */
  function Printed(data: seq<Byte>): seq<Byte>
    decreases |data|
  {
    if data == [] then [] else
      var n := ChunkSize(|data|);
      Str(data[..n]) + Printed(data[n..])
  }

  /** The file is printed exactly as it is if and only if it holds no NUL. */
  lemma {:induction false} PrintedIsFile(data: seq<Byte>)
    ensures |Printed(data)| <= |data|
    ensures Printed(data) == data <==> NoNul(data)
    decreases |data|
  {
    if data != [] {
      var n := ChunkSize(|data|);
      var chunk, rest := data[..n], data[n..];
      assert data == chunk + rest;
      PrintedIsFile(rest);
      assert NoNul(data) <==> NoNul(chunk) && NoNul(rest);
      if Printed(data) == data {
        assert |Str(chunk)| == n;
        assert Printed(data)[n..] == Printed(rest);
      }
    }
  }

  /** From the start of byte i's chunk of 255 up to byte i there is no NUL. */
  ghost predicate Reaches(data: seq<Byte>, i: nat) {
    forall j :: i - i % 255 <= j <= i && j < |data| ==> data[j] != 0
  }

  /** Of the first k bytes, those that are reached. */
  ghost function Reached(data: seq<Byte>, k: nat): seq<Byte>
    requires k <= |data|
  {
    if k == 0 then [] else Reached(data, k - 1) + if Reaches(data, k - 1) then [data[k - 1]] else []
  }

  /** Byte by byte: what is printed is every byte with no NUL at it or before it in its chunk of 255, in order. */
  lemma {:induction false} PrintedIsReached(data: seq<Byte>)
    ensures Printed(data) == Reached(data, |data|)
    decreases |data|
  {
    if data != [] {
      var n := ChunkSize(|data|);
      ReachedChunk(data, n);
      PrintedIsReached(data[n..]);
      ReachedRest(data, n, |data| - n);
    }
  }

  lemma {:induction false} ReachedChunk(data: seq<Byte>, k: nat)
    requires k <= |data| && k <= 255
    ensures Reached(data, k) == Str(data[..k])
    decreases k
  {
    if k > 0 {
      ReachedChunk(data, k - 1);
      var before, chunk := data[..k - 1], data[..k];
      assert chunk == before + [data[k - 1]];
      assert (k - 1) % 255 == k - 1;
      if Len(before) < k - 1 {
        assert data[Len(before)] == 0;
        LenKept(before, data[k - 1]);
      } else {
        LenWhole(before, data[k - 1]);
      }
    }
  }

  lemma {:induction false} LenKept(s: seq<Byte>, c: Byte)
    requires Len(s) < |s|
    ensures Len(s + [c]) == Len(s) && Str(s + [c]) == Str(s)
    decreases |s|
  {
    if s[0] != 0 {
      assert (s + [c])[1..] == s[1..] + [c];
      LenKept(s[1..], c);
    }
    assert (s + [c])[..Len(s)] == s[..Len(s)];
  }

  lemma LenWhole(s: seq<Byte>, c: Byte)
    requires Len(s) == |s|
    ensures Str(s + [c]) == if c == 0 then s else s + [c]
  {
    assert 0 !in s;
    if c == 0 {
      StrIs(s + [c], s);
    } else {
      assert 0 !in s + [c];
    }
  }

  lemma {:induction false} ReachedRest(data: seq<Byte>, n: nat, k: nat)
    requires n + k <= |data| && (n == 255 || k == 0)
    ensures Reached(data, n + k) == Reached(data, n) + Reached(data[n..], k)
    decreases k
  {
    if k > 0 {
      ReachedRest(data, n, k - 1);
      ReachesRest(data, n, k - 1);
    }
  }

  lemma ReachesRest(data: seq<Byte>, n: nat, i: nat)
    requires n == 255 && n + i < |data|
    ensures Reaches(data, n + i) <==> Reaches(data[n..], i)
  {
    var rest := data[n..];
    assert (n + i) % 255 == i % 255;
    if Reaches(rest, i) {
      forall j | n + i - i % 255 <= j <= n + i
        ensures data[j] != 0
      {
        assert rest[j - n] == data[j];
      }
    }
  }

  function FileBytes(mem: seq<Byte>, node: Node): seq<Byte>
    requires node.impl + node.length <= |mem|
  {
    mem[node.impl..node.impl + node.length]
  }

  /** One turn of the loop reads the next chunk of the file. */
  lemma NextChunk(mem: seq<Byte>, node: Node, offset: nat, n: nat)
    requires node.impl + node.length <= |mem| && offset < node.length && n == ChunkSize(node.length - offset)
    ensures ReadSpec(mem, node, offset, n) == FileBytes(mem, node)[offset..][..n]
    ensures FileBytes(mem, node)[offset..][n..] == FileBytes(mem, node)[offset + n..]
  {
    var at := node.impl + offset;
    assert ReadSpec(mem, node, offset, n) == mem[at..at + n];
  }

  method CatFile(disk: Disk, node: Node, screen: Screen)
    requires screen.Valid() && node.impl + node.length <= |disk.mem| && node.length < 0x1_0000_0000
    modifies screen, screen.buffer
    ensures screen.Valid()
    ensures screen.tape == Put(PutAll(old(screen.tape), Printed(FileBytes(disk.mem, node))), NEWLINE)
  {
    var buf := new Byte[256](_ => 0);
    var sz, offset := node.length, 0;
    ghost var data, t := FileBytes(disk.mem, node), screen.tape;
    assert data[0..] == data;
    while sz > 0
      invariant offset + sz == node.length && screen.Valid() && fresh(buf)
      invariant PutAll(screen.tape, Printed(data[offset..])) == PutAll(t, Printed(data))
      decreases sz
    {
      var readSz := if sz > 255 then 255 else sz;
      NextChunk(disk.mem, node, offset, readSz);
      var bytes := disk.Read(node, offset, readSz, buf);
      if bytes == 0 {
        break;
      }
      buf[bytes] := 0;
      ghost var chunk := data[offset..][..bytes];
      TerminatedChunk(buf[..], chunk);
      ghost var before := screen.tape;
      screen.WriteString(buf[..]);
      PutAllAppend(before, Str(chunk), Printed(data[offset + bytes..]));
      offset := offset + bytes;
      sz := sz - bytes;
    }
    assert data[offset..] == [];
    screen.PutChar(NEWLINE);
  }

  lemma {:induction false} LenOfPrefix(s: seq<Byte>, t: seq<Byte>)
    requires |t| < |s| && s[..|t|] == t && s[|t|] == 0
    ensures Len(s) == Len(t)
    decreases |t|
  {
    if t != [] && t[0] != 0 {
      assert s[0] == t[0];
      assert s[1..][..|t| - 1] == t[1..];
      LenOfPrefix(s[1..], t[1..]);
    } else if t != [] {
      assert s[0] == t[0];
    }
  }

  /** A chunk with the terminator behind it, in a buffer, is the chunk up to its own first NUL. */
  lemma TerminatedChunk(s: seq<Byte>, chunk: seq<Byte>)
    requires |chunk| < |s| && s[..|chunk|] == chunk && s[|chunk|] == 0
    ensures 0 in s && Str(s) == Str(chunk)
  {
    LenOfPrefix(s, chunk);
    assert s[..Len(s)] == s[..|chunk|][..Len(s)];
  }
}
