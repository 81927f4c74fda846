/** The PCI bus: packing of configuration addresses, and the two scans, one that lists and one that looks. */
module Pci {
  import opened Bits
  import opened Wrappers

  // ---------------------------------------------------------------- addresses

  /** What the data port answers for every address written to the address port. */
  type Config = nat -> nat

  function Address(bus: nat, slot: nat, func: nat, offset: nat): nat {
    Or(Or(Or(Or(bus * 0x1_0000, slot * 0x800), func * 0x100), And(offset, 0xFC)), 0x8000_0000)
  }

  /** The fields do not overlap: the address is their sum, so two functions never share one. */
  lemma AddressIsSum(bus: nat, slot: nat, func: nat, offset: nat)
    requires bus < 256 && slot < 32 && func < 8 && offset < 256
    ensures Address(bus, slot, func, offset)
         == 0x8000_0000 + 256 * Number(bus, slot, func) + (offset - offset % 4)
    ensures Address(bus, slot, func, offset) < 0x1_0000_0000
  {
    And252(offset);
    Fields();
    var b, s, f, o := bus * 0x1_0000, slot * 0x800, func * 0x100, offset - offset % 4;
    ClearMultiple(bus, 16, b);
    ClearMultiple(32 * bus + slot, 11, b + s);
    ClearMultiple(256 * bus + 8 * slot + func, 8, b + s + f);
    var bs, bsf, low, all := b + s, b + s + f, b + s + f + o, 0x8000_0000 + b + s + f + o;
    FieldsJoin(b, s, f, o, bs, bsf, low, all);
    AddressChain(bus, slot, func, offset, b, s, f, o, bs, bsf, low, all);
  }

  lemma FieldsJoin(b: nat, s: nat, f: nat, o: nat, bs: nat, bsf: nat, low: nat, all: nat)
    requires bs == b + s && bsf == bs + f && low == bsf + o && all == 0x8000_0000 + low && low < 0x8000_0000
    requires LowClear(b, 16) && LowClear(bs, 11) && LowClear(bsf, 8) && s < 0x1_0000 && f < 0x800 && o < 0x100
    ensures Or(b, s) == bs && Or(bs, f) == bsf && Or(bsf, o) == low && Or(low, 0x8000_0000) == all
  {
    Fields();
    Field(b, s, 16, bs);
    Field(bs, f, 11, bsf);
    Field(bsf, o, 8, low);
    OnTop(low, 0x8000_0000, 31);
  }

  lemma AddressChain(bus: nat, slot: nat, func: nat, offset: nat, b: nat, s: nat, f: nat, o: nat,
                     bs: nat, bsf: nat, low: nat, all: nat)
    requires b == bus * 0x1_0000 && s == slot * 0x800 && f == func * 0x100 && o == And(offset, 0xFC)
    requires Or(b, s) == bs && Or(bs, f) == bsf && Or(bsf, o) == low && Or(low, 0x8000_0000) == all
    ensures Address(bus, slot, func, offset) == all
  {}

  lemma Fields()
    ensures Shift(8) == 0x100 && Shift(11) == 0x800 && Shift(16) == 0x1_0000 && Shift(31) == 0x8000_0000
  {
    Shift32();
    assert Shift(32) == 2 * Shift(31);
    assert Shift(11) == 8 * Shift(8);
  }

  /** One more field below the ones that are there. */
  lemma Field(x: nat, r: nat, n: nat, y: nat)
    requires LowClear(x, n) && r < Shift(n) && y == x + r
    ensures Or(x, r) == y
  {
    OrIsSum(x, r, n);
  }

  lemma OnTop(low: nat, top: nat, n: nat)
    requires low < Shift(n) && top == Shift(n)
    ensures Or(low, top) == top + low
  {
    OrSwaps(low, top);
    ClearMultiple(1, n, top);
    OrIsSum(top, low, n);
  }

  /** offset & 0xFC: the word the byte lies in. */
  lemma And252(offset: nat)
    requires offset < 256
    ensures And(offset, 0xFC) == offset - offset % 4
  {
    assert Shift(6) == 64;
    var quarter := offset / 4;
    AndFull(quarter, 6, 63);
    assert offset / 2 / 2 == quarter;
    assert And(offset / 2, 0x7E) == 2 * And(quarter, 0x3F);
  }

  // ---------------------------------------------------------------- functions in scan order

  function Number(bus: nat, slot: nat, func: nat): nat {
    256 * bus + 8 * slot + func
  }

  function Word(cfg: Config, n: nat, offset: nat): nat {
    cfg(0x8000_0000 + 256 * n + offset)
  }

  function Vendor(cfg: Config, n: nat): nat {
    Word(cfg, n, 0) % 0x1_0000
  }

  function Device(cfg: Config, n: nat): nat {
    Word(cfg, n, 0) / 0x1_0000 % 0x1_0000
  }

  /** The multi-function bit of the header type. */
  predicate Multi(cfg: Config, n: nat) {
    And(Word(cfg, n, 12) / 0x1_0000, 0x80) != 0
  }

  /** Function 0 of the same slot. */
  function Head(n: nat): nat {
    n - n % 8
  }

  /** pci_enumerate prints function n. */
  predicate Listed(cfg: Config, n: nat) {
    Vendor(cfg, n) != 0xFFFF && (n % 8 == 0 || Vendor(cfg, Head(n)) == 0xFFFF || Multi(cfg, Head(n)))
  }

  /** pci_find_device compares function n. */
  predicate Compared(cfg: Config, n: nat) {
    n % 8 == 0 || Multi(cfg, Head(n))
  }

  predicate IsId(cfg: Config, n: nat, vendor: nat, device: nat) {
    Vendor(cfg, n) == vendor && Device(cfg, n) == device
  }

  const END: nat := 0x1_0000

  /** The answer is the least function below END with property p, if there is one. */
  ghost predicate IsFirst(p: nat -> bool, answer: Option<nat>) {
    match answer
    case None => forall n: nat :: n < END ==> !p(n)
    case Some(n) => n < END && p(n) && forall k: nat :: k < n ==> !p(k)
  }

  ghost function Listing(cfg: Config, vendor: nat, device: nat): nat -> bool {
    (n: nat) => Listed(cfg, n) && IsId(cfg, n, vendor, device)
  }

  ghost function Finding(cfg: Config, vendor: nat, device: nat): nat -> bool {
    (n: nat) => Compared(cfg, n) && IsId(cfg, n, vendor, device)
  }

  // ---------------------------------------------------------------- agreement

  /** A function that is listed though the search never looks at it has a twin earlier that the search does see. */
  ghost predicate NothingHidden(cfg: Config) {
    forall n: nat :: n < END && Listed(cfg, n) && !Compared(cfg, n) ==>
      exists k: nat :: k < n && Compared(cfg, k) && IsId(cfg, k, Vendor(cfg, n), Device(cfg, n))
  }

  /** The search finds what the list shows, the first of it, for every real vendor. */
  ghost predicate Agree(cfg: Config) {
    forall vendor: nat, device: nat, answer: Option<nat> :: vendor != 0xFFFF ==>
      (IsFirst(Listing(cfg, vendor, device), answer) <==> IsFirst(Finding(cfg, vendor, device), answer))
  }

  lemma AgreeOn(cfg: Config, vendor: nat, device: nat, answer: Option<nat>)
    requires NothingHidden(cfg) && vendor != 0xFFFF
    ensures IsFirst(Listing(cfg, vendor, device), answer) <==> IsFirst(Finding(cfg, vendor, device), answer)
  {
    var p, q := Listing(cfg, vendor, device), Finding(cfg, vendor, device);
    assert forall n: nat :: q(n) ==> p(n);
    forall n: nat | n < END && p(n) && !q(n) ensures exists k: nat :: k < n && q(k) {
      assert Listed(cfg, n) && !Compared(cfg, n);
      var k: nat :| k < n && Compared(cfg, k) && IsId(cfg, k, Vendor(cfg, n), Device(cfg, n));
      assert q(k);
    }
  }

  /** The two scans agree if and only if nothing is hidden from the search. */
  lemma ScansAgree(cfg: Config)
    ensures Agree(cfg) <==> NothingHidden(cfg)
  {
    if NothingHidden(cfg) {
      forall vendor: nat, device: nat, answer: Option<nat> | vendor != 0xFFFF
        ensures IsFirst(Listing(cfg, vendor, device), answer) <==> IsFirst(Finding(cfg, vendor, device), answer)
      {
        AgreeOn(cfg, vendor, device, answer);
      }
    }
    if Agree(cfg) {
      forall n: nat | n < END && Listed(cfg, n) && !Compared(cfg, n)
        ensures exists k: nat :: k < n && Compared(cfg, k) && IsId(cfg, k, Vendor(cfg, n), Device(cfg, n))
      {
        var vendor, device := Vendor(cfg, n), Device(cfg, n);
        var p := Listing(cfg, vendor, device);
        assert p(n);
        var k := Least(p, n);
        assert IsFirst(p, Some(k));
        assert IsFirst(Finding(cfg, vendor, device), Some(k));
      }
    }
  }

  lemma {:induction false} Least(p: nat -> bool, n: nat) returns (k: nat)
    requires p(n)
    ensures k <= n && p(k) && forall j: nat :: j < k ==> !p(j)
    decreases n
  {
    if j: nat :| j < n && p(j) {
      k := Least(p, j);
    } else {
      k := n;
    }
  }

  /** Absent functions read as all ones. */
  ghost predicate AbsentIsOnes(cfg: Config) {
    forall n: nat, offset: nat :: n < END && offset < 256 && offset % 4 == 0 && Vendor(cfg, n) == 0xFFFF ==>
      Word(cfg, n, offset) == 0xFFFF_FFFF
  }

  lemma OnesAgree(cfg: Config)
    requires AbsentIsOnes(cfg)
    ensures NothingHidden(cfg) && Agree(cfg)
  {
    forall n: nat | n < END && Listed(cfg, n) ensures Compared(cfg, n) {
      if n % 8 != 0 && Vendor(cfg, Head(n)) == 0xFFFF {
        assert Word(cfg, Head(n), 12) == 0xFFFF_FFFF;
        Bit7();
      }
    }
    ScansAgree(cfg);
  }

  lemma Bit7()
    ensures And(0xFFFF, 0x80) != 0
  {
    assert Shift(7) == 0x80 && Shift(16) == 0x1_0000;
    FullBit(16, 7);
    AndShift(0xFFFF, 7);
  }

  /** A card on function 1 behind a function 0 that is absent but reads 0 elsewhere: listed, not found. */
  function Hiding(address: nat): nat {
    if address == 0x8000_0100 then 0x100E_8086 else if address % 256 == 0 then 0xFFFF_FFFF else 0
  }

  lemma HiddenCard()
    ensures Listed(Hiding, 1) && IsId(Hiding, 1, 0x8086, 0x100E)
    ensures IsFirst(Finding(Hiding, 0x8086, 0x100E), None) && !Agree(Hiding)
  {
    assert And(0, 0x80) == 0;
    forall n: nat | n < END && n != 1 ensures Vendor(Hiding, n) == 0xFFFF {
      assert (0x8000_0000 + 256 * n) % 256 == 0;
    }
    assert !Compared(Hiding, 1);
    assert Listing(Hiding, 0x8086, 0x100E)(1);
    assert !IsFirst(Listing(Hiding, 0x8086, 0x100E), None);
  }

  // ---------------------------------------------------------------- the scans

  method ReadConfig(cfg: Config, bus: nat, slot: nat, func: nat, offset: nat, ghost n: nat) returns (word: nat)
    requires bus < 256 && slot < 32 && func < 8 && offset < 256 && n == Number(bus, slot, func)
    ensures word == Word(cfg, n, offset - offset % 4)
    ensures offset % 4 == 0 ==> word == Word(cfg, n, offset)
  {
    AddressIsSum(bus, slot, func, offset);
    var address := Address(bus, slot, func, offset);
    word := cfg(address);
  }

  /** A line of the list. */
  datatype Row = Row(bus: nat, slot: nat, func: nat, vendor: nat, device: nat, kind: nat, subclass: nat)

  function At(row: Row): nat {
    Number(row.bus, row.slot, row.func)
  }

  function RowOf(cfg: Config, bus: nat, slot: nat, func: nat): Row {
    var n := Number(bus, slot, func);
    Row(bus, slot, func, Vendor(cfg, n), Device(cfg, n), Word(cfg, n, 8) / 0x100_0000 % 256,
      Word(cfg, n, 8) / 0x1_0000 % 256)
  }

  ghost predicate InOrder(rows: seq<Row>) {
    forall i, j :: 0 <= i < j < |rows| ==> At(rows[i]) < At(rows[j])
  }

  ghost predicate Present(rows: seq<Row>, k: nat) {
    exists i :: 0 <= i < |rows| && At(rows[i]) == k
  }

  ghost predicate Right(cfg: Config, row: Row) {
    Listed(cfg, At(row)) && row == RowOf(cfg, row.bus, row.slot, row.func) && row.slot < 32 && row.func < 8
  }

  /** The rows are those of the listed functions below n, each once and in order. */
  ghost predicate ListsBelow(cfg: Config, rows: seq<Row>, n: nat) {
    && InOrder(rows)
    && (forall i :: 0 <= i < |rows| ==> At(rows[i]) < n && Right(cfg, rows[i]))
    && (forall k: nat {:trigger Present(rows, k)} :: k < n && Listed(cfg, k) ==> Present(rows, k))
  }

  lemma OneRow(cfg: Config, rows: seq<Row>, n: nat, row: Row)
    requires ListsBelow(cfg, rows, n) && At(row) == n && Right(cfg, row)
    ensures ListsBelow(cfg, rows + [row], n + 1)
  {
    var more := rows + [row];
    forall k: nat | k < n + 1 && Listed(cfg, k) ensures Present(more, k) {
      if k == n {
        assert At(more[|rows|]) == k;
      } else {
        assert Present(rows, k);
        var i :| 0 <= i < |rows| && At(rows[i]) == k;
        assert At(more[i]) == k;
      }
    }
  }

  lemma NoRow(cfg: Config, rows: seq<Row>, n: nat, n': nat)
    requires ListsBelow(cfg, rows, n) && n <= n' && forall k: nat :: n <= k < n' ==> !Listed(cfg, k)
    ensures ListsBelow(cfg, rows, n')
  {}

  /** Both scans leave a slot after a present function 0 without the multi-function bit. */
  lemma RestSkipped(cfg: Config, s: nat, first: nat)
    requires first == 8 * s && !Multi(cfg, first)
    ensures forall k: nat :: first < k < first + 8 ==> !Compared(cfg, k)
    ensures Vendor(cfg, first) != 0xFFFF ==> forall k: nat :: first < k < first + 8 ==> !Listed(cfg, k)
  {
    forall k: nat | first < k < first + 8 ensures Head(k) == first {}
  }

  method Enumerate(cfg: Config) returns (rows: seq<Row>)
    ensures ListsBelow(cfg, rows, END)
  {
    rows := [];
    ghost var n := 0;
    for bus := 0 to 256
      invariant n == 256 * bus && ListsBelow(cfg, rows, n)
    {
      for slot := 0 to 32
        invariant n == 256 * bus + 8 * slot && ListsBelow(cfg, rows, n)
      {
        rows := EnumerateSlot(cfg, bus, slot, rows, n);
        n := n + 8;
      }
    }
  }

  method EnumerateSlot(cfg: Config, bus: nat, slot: nat, before: seq<Row>, ghost first: nat) returns (rows: seq<Row>)
    requires bus < 256 && slot < 32 && first == 256 * bus + 8 * slot && ListsBelow(cfg, before, first)
    ensures ListsBelow(cfg, rows, first + 8)
  {
    rows := before;
    for func := 0 to 8
      invariant ListsBelow(cfg, rows, first + func)
      invariant func == 0 || Vendor(cfg, first) == 0xFFFF || Multi(cfg, first)
    {
      var last;
      rows, last := EnumerateFunction(cfg, bus, slot, func, rows, first, first + func);
      if last {
        break;
      }
    }
  }

  /** The body of the innermost loop; last says that it ends in a break. */
  method EnumerateFunction(cfg: Config, bus: nat, slot: nat, func: nat, before: seq<Row>,
                           ghost first: nat, ghost n: nat)
    returns (rows: seq<Row>, last: bool)
    requires bus < 256 && slot < 32 && func < 8 && first == 256 * bus + 8 * slot && n == first + func
    requires ListsBelow(cfg, before, n) && (func == 0 || Vendor(cfg, first) == 0xFFFF || Multi(cfg, first))
    ensures ListsBelow(cfg, rows, if last then first + 8 else n + 1)
    ensures !last ==> Vendor(cfg, first) == 0xFFFF || Multi(cfg, first)
  {
    rows, last := before, false;
    SameSlot(32 * bus + slot, first, n);
    var vendorDevice := ReadConfig(cfg, bus, slot, func, 0, n);
    var vendor, device := vendorDevice % 0x1_0000, vendorDevice / 0x1_0000 % 0x1_0000;
    if vendor != 0xFFFF {
      var classSub := ReadConfig(cfg, bus, slot, func, 8, n);
      var row := Row(bus, slot, func, vendor, device, classSub / 0x100_0000 % 256, classSub / 0x1_0000 % 256);
      OneRow(cfg, rows, n, row);
      rows := rows + [row];
      last := SkipsRest(cfg, bus, slot, func, n);
      if last {
        SlotDone(cfg, rows, 32 * bus + slot, first);
      }
    } else {
      NotListed(cfg, rows, n);
    }
  }

  /** Whether a break leaves the slot here: at a function 0 without the multi-function bit. */
  method SkipsRest(cfg: Config, bus: nat, slot: nat, func: nat, ghost n: nat) returns (skips: bool)
    requires bus < 256 && slot < 32 && func < 8 && n == Number(bus, slot, func)
    ensures skips <==> func == 0 && !Multi(cfg, n)
  {
    skips := false;
    if func == 0 {
      var header := ReadConfig(cfg, bus, slot, func, 0x0C, n);
      skips := And(header / 0x1_0000, 0x80) == 0;
    }
  }

  lemma SlotDone(cfg: Config, rows: seq<Row>, s: nat, first: nat)
    requires first == 8 * s && ListsBelow(cfg, rows, first + 1) && Vendor(cfg, first) != 0xFFFF && !Multi(cfg, first)
    ensures ListsBelow(cfg, rows, first + 8)
  {
    RestSkipped(cfg, s, first);
    NoRow(cfg, rows, first + 1, first + 8);
  }

  lemma NotListed(cfg: Config, rows: seq<Row>, n: nat)
    requires ListsBelow(cfg, rows, n) && Vendor(cfg, n) == 0xFFFF
    ensures ListsBelow(cfg, rows, n + 1)
  {
    NoRow(cfg, rows, n, n + 1);
  }

  lemma SameSlot(s: nat, first: nat, n: nat)
    requires first == 8 * s && first <= n < first + 8
    ensures Head(n) == first && (n % 8 == 0 <==> n == first)
  {}

  ghost predicate NoneBelow(cfg: Config, vendor: nat, device: nat, n: nat) {
    forall k: nat :: k < n ==> !Finding(cfg, vendor, device)(k)
  }

  lemma NotHere(cfg: Config, vendor: nat, device: nat, n: nat, n': nat)
    requires NoneBelow(cfg, vendor, device, n) && n <= n'
    requires forall k: nat :: n <= k < n' ==> !Compared(cfg, k) || !IsId(cfg, k, vendor, device)
    ensures NoneBelow(cfg, vendor, device, n')
  {}

  lemma Here(cfg: Config, vendor: nat, device: nat, n: nat)
    requires n < END && NoneBelow(cfg, vendor, device, n) && Compared(cfg, n) && IsId(cfg, n, vendor, device)
    ensures IsFirst(Finding(cfg, vendor, device), Some(n))
  {}

  method FindDevice(cfg: Config, vendor: nat, device: nat) returns (found: bool, bus: nat, slot: nat, func: nat)
    ensures found ==> bus < 256 && slot < 32 && func < 8
    ensures IsFirst(Finding(cfg, vendor, device), if found then Some(Number(bus, slot, func)) else None)
  {
    bus := 0;
    ghost var n := 0;
    while bus < 256
      invariant bus <= 256 && n == 256 * bus && NoneBelow(cfg, vendor, device, n)
    {
      slot := 0;
      while slot < 32
        invariant slot <= 32 && n == 256 * bus + 8 * slot && NoneBelow(cfg, vendor, device, n)
      {
        func := 0;
        ghost var head := n;
        while func < 8
          invariant func <= 8 && n == head + func && (func == 0 || Multi(cfg, head))
          invariant NoneBelow(cfg, vendor, device, n)
        {
          SameSlot(32 * bus + slot, head, n);
          var vendorDevice := ReadConfig(cfg, bus, slot, func, 0, n);
          if vendorDevice % 0x1_0000 == vendor && vendorDevice / 0x1_0000 % 0x1_0000 == device {
            Here(cfg, vendor, device, n);
            found := true;
            return;
          }
          if func == 0 {
            var header := ReadConfig(cfg, bus, slot, func, 0x0C, n);
            if And(header / 0x1_0000, 0x80) == 0 {
              RestSkipped(cfg, 32 * bus + slot, head);
              NotHere(cfg, vendor, device, n, head + 8);
              break;
            }
          }
          NotHere(cfg, vendor, device, n, n + 1);
          func, n := func + 1, n + 1;
        }
        slot, n := slot + 1, head + 8;
      }
      bus := bus + 1;
    }
    found, bus, slot, func := false, 0, 0, 0;
  }

  predicate Shows(row: Row, vendor: nat, device: nat) {
    row.vendor == vendor && row.device == device
  }

  ghost predicate FirstRow(rows: seq<Row>, vendor: nat, device: nat, i: nat)
    requires i < |rows|
  {
    Shows(rows[i], vendor, device) && forall j :: 0 <= j < i ==> !Shows(rows[j], vendor, device)
  }

  /** What the list shows first of a vendor and device is what the search returns. */
  lemma FindIsFirstRow(cfg: Config, rows: seq<Row>, vendor: nat, device: nat, answer: Option<nat>)
    requires NothingHidden(cfg) && vendor != 0xFFFF
    requires ListsBelow(cfg, rows, END) && IsFirst(Finding(cfg, vendor, device), answer)
    ensures answer.None? <==> forall i :: 0 <= i < |rows| ==> !Shows(rows[i], vendor, device)
    ensures answer.Some? ==>
      exists i :: 0 <= i < |rows| && FirstRow(rows, vendor, device, i) && At(rows[i]) == answer.value
  {
    AgreeOn(cfg, vendor, device, answer);
    var p := Listing(cfg, vendor, device);
    forall i | 0 <= i < |rows| ensures Shows(rows[i], vendor, device) <==> p(At(rows[i])) {}
    if answer.Some? {
      assert Present(rows, answer.value);
      var i :| 0 <= i < |rows| && At(rows[i]) == answer.value;
      assert FirstRow(rows, vendor, device, i);
    }
  }

  // ---------------------------------------------------------------- in bytes of configuration space

  /** Byte k of a function's configuration space. */
  function ByteOf(cfg: Config, bus: nat, slot: nat, func: nat, k: nat): nat {
    var word := cfg(0x8000_0000 + bus * 0x1_0000 + slot * 0x800 + func * 0x100 + (k - k % 4));
    match k % 4
    case 0 => word % 256
    case 1 => word / 0x100 % 256
    case 2 => word / 0x1_0000 % 256
    case _ => word / 0x100_0000 % 256
  }

  /** Bytes 0 and 1, 2 and 3, 11, 10. */
  function RowAt(cfg: Config, bus: nat, slot: nat, func: nat): Row {
    Row(bus, slot, func,
        ByteOf(cfg, bus, slot, func, 0) + 256 * ByteOf(cfg, bus, slot, func, 1),
        ByteOf(cfg, bus, slot, func, 2) + 256 * ByteOf(cfg, bus, slot, func, 3),
        ByteOf(cfg, bus, slot, func, 11), ByteOf(cfg, bus, slot, func, 10))
  }

  /** There is a function, with a vendor other than 0xFFFF. */
  predicate There(cfg: Config, bus: nat, slot: nat, func: nat) {
    RowAt(cfg, bus, slot, func).vendor != 0xFFFF
  }

  /** Bit 7 of byte 14, the header type, of function 0: the device has more functions. */
  predicate HasMore(cfg: Config, bus: nat, slot: nat) {
    ByteOf(cfg, bus, slot, 0, 14) >= 128
  }

  predicate Earlier(a: Row, b: Row) {
    a.bus < b.bus || (a.bus == b.bus && (a.slot < b.slot || (a.slot == b.slot && a.func < b.func)))
  }

  predicate OnBus(bus: nat, slot: nat, func: nat) {
    bus < 256 && slot < 32 && func < 8
  }

  lemma ShortOf(w: nat)
    ensures w % 256 + 256 * (w / 0x100 % 256) == w % 0x1_0000
    ensures w / 0x1_0000 % 256 + 256 * (w / 0x100_0000 % 256) == w / 0x1_0000 % 0x1_0000
  {
    Short16(w, w / 0x100);
    var h := w / 0x1_0000;
    assert w / 0x100_0000 == h / 0x100;
    Short16(h, h / 0x100);
  }

  lemma Short16(v: nat, q: nat)
    requires q == v / 0x100
    ensures v % 256 + 256 * (q % 256) == v % 0x1_0000
  {
    var t, a, b := q / 256, v % 256, q % 256;
    assert v == 256 * q + a && q == 256 * t + b;
    LowPart(t, a + 256 * b, v);
  }

  lemma LowPart(t: nat, r: nat, v: nat)
    requires v == 0x1_0000 * t + r && r < 0x1_0000
    ensures v % 0x1_0000 == r
  {}

  lemma Bit7Is(a: nat)
    ensures And(a, 0x80) != 0 <==> a % 256 >= 128
  {
    assert Shift(7) == 0x80;
    AndShift(a, 7);
    var h := Halved(a);
    HighBit(h, a % 128, a);
  }

  lemma HighBit(h: nat, r: nat, a: nat)
    requires a == 128 * h + r && r < 128
    ensures h % 2 == 1 <==> a % 256 >= 128
  {
    var t, b := h / 2, h % 2;
    assert a == 256 * t + (128 * b + r);
  }

  lemma Halved(a: nat) returns (h: nat)
    ensures a == 128 * h + a % 128 && (Bit(a, 7) <==> h % 2 == 1)
  {
    var b := a / 2;
    var c := b / 2;
    var d := c / 2;
    var e := d / 2;
    var f := e / 2;
    var g := f / 2;
    h := g / 2;
    SevenBits(a, b, c, d, e, f, g, h);
    assert h == a / 128;
  }

  lemma SevenBits(a: nat, b: nat, c: nat, d: nat, e: nat, f: nat, g: nat, h: nat)
    requires b == a / 2 && c == b / 2 && d == c / 2 && e == d / 2 && f == e / 2 && g == f / 2 && h == g / 2
    ensures Bit(a, 7) <==> h % 2 == 1
  {
    assert Bit(a, 7) == Bit(b, 6) == Bit(c, 5) == Bit(d, 4);
    assert Bit(d, 4) == Bit(e, 3) == Bit(f, 2) == Bit(g, 1) == Bit(h, 0);
  }

  /** The words the scans look at, in these bytes. */
  lemma InBytes(cfg: Config, bus: nat, slot: nat, func: nat, n: nat)
    requires OnBus(bus, slot, func) && n == Number(bus, slot, func)
    ensures RowOf(cfg, bus, slot, func) == RowAt(cfg, bus, slot, func)
    ensures Vendor(cfg, n) == RowAt(cfg, bus, slot, func).vendor && Device(cfg, n) == RowAt(cfg, bus, slot, func).device
    ensures func == 0 ==> (Multi(cfg, n) <==> HasMore(cfg, bus, slot))
    ensures Head(n) == Number(bus, slot, 0) && (n % 8 == 0 <==> func == 0) && n < END
  {
    RowIs(cfg, bus, slot, func, n);
    MoreIs(cfg, bus, slot, Number(bus, slot, 0));
    SameSlot(32 * bus + slot, Number(bus, slot, 0), n);
  }

  lemma RowIs(cfg: Config, bus: nat, slot: nat, func: nat, n: nat)
    requires n == Number(bus, slot, func)
    ensures RowOf(cfg, bus, slot, func) == RowAt(cfg, bus, slot, func)
    ensures Vendor(cfg, n) == RowAt(cfg, bus, slot, func).vendor && Device(cfg, n) == RowAt(cfg, bus, slot, func).device
  {
    AddressIs(cfg, bus, slot, func, n, 0);
    AddressIs(cfg, bus, slot, func, n, 8);
    ShortOf(Word(cfg, n, 0));
  }

  lemma MoreIs(cfg: Config, bus: nat, slot: nat, n: nat)
    requires n == Number(bus, slot, 0)
    ensures Multi(cfg, n) <==> HasMore(cfg, bus, slot)
  {
    AddressIs(cfg, bus, slot, 0, n, 12);
    Bit7Is(Word(cfg, n, 12) / 0x1_0000);
  }

  /** The four bytes of the word at offset k. */
  lemma AddressIs(cfg: Config, bus: nat, slot: nat, func: nat, n: nat, k: nat)
    requires n == Number(bus, slot, func) && k % 4 == 0
    ensures var w := Word(cfg, n, k);
      && ByteOf(cfg, bus, slot, func, k) == w % 256 && ByteOf(cfg, bus, slot, func, k + 1) == w / 0x100 % 256
      && ByteOf(cfg, bus, slot, func, k + 2) == w / 0x1_0000 % 256
      && ByteOf(cfg, bus, slot, func, k + 3) == w / 0x100_0000 % 256
  {
    var at := 0x8000_0000 + bus * 0x1_0000 + slot * 0x800 + func * 0x100 + k;
    assert at == 0x8000_0000 + 256 * n + k;
    assert (k + 1) % 4 == 1 && (k + 2) % 4 == 2 && (k + 3) % 4 == 3;
  }

  lemma ListedIs(cfg: Config, bus: nat, slot: nat, func: nat)
    requires OnBus(bus, slot, func)
    ensures Listed(cfg, Number(bus, slot, func)) <==>
      There(cfg, bus, slot, func) && (func == 0 || !There(cfg, bus, slot, 0) || HasMore(cfg, bus, slot))
    ensures Compared(cfg, Number(bus, slot, func)) <==> func == 0 || HasMore(cfg, bus, slot)
  {
    InBytes(cfg, bus, slot, func, Number(bus, slot, func));
    InBytes(cfg, bus, slot, 0, Number(bus, slot, 0));
  }

  /** The list, in bytes: a function has a row if and only if it is there and is function 0, or function 0 is not there
    * or has bit 7 set in its header type; the rows give vendor, device, class and subclass, in scan order. */
  lemma RowsAre(cfg: Config, rows: seq<Row>)
    requires ListsBelow(cfg, rows, END)
    ensures forall bus: nat, slot: nat, func: nat :: OnBus(bus, slot, func) ==>
      (RowAt(cfg, bus, slot, func) in rows <==>
        There(cfg, bus, slot, func) && (func == 0 || !There(cfg, bus, slot, 0) || HasMore(cfg, bus, slot)))
    ensures forall r :: r in rows ==> OnBus(r.bus, r.slot, r.func) && r == RowAt(cfg, r.bus, r.slot, r.func)
    ensures forall i, j :: 0 <= i < j < |rows| ==> Earlier(rows[i], rows[j])
  {
    forall i | 0 <= i < |rows|
      ensures OnBus(rows[i].bus, rows[i].slot, rows[i].func)
      ensures rows[i] == RowAt(cfg, rows[i].bus, rows[i].slot, rows[i].func)
    {
      InBytes(cfg, rows[i].bus, rows[i].slot, rows[i].func, At(rows[i]));
    }
    forall i, j | 0 <= i < j < |rows|
      ensures Earlier(rows[i], rows[j])
    {
      EarlierIs(rows[i], rows[j]);
    }
    forall bus: nat, slot: nat, func: nat | OnBus(bus, slot, func)
      ensures RowAt(cfg, bus, slot, func) in rows <==> Listed(cfg, Number(bus, slot, func))
      ensures RowAt(cfg, bus, slot, func) in rows <==>
        There(cfg, bus, slot, func) && (func == 0 || !There(cfg, bus, slot, 0) || HasMore(cfg, bus, slot))
    {
      RowIn(cfg, rows, bus, slot, func);
      ListedIs(cfg, bus, slot, func);
    }
  }

  lemma EarlierIs(a: Row, b: Row)
    requires OnBus(a.bus, a.slot, a.func) && OnBus(b.bus, b.slot, b.func)
    ensures Earlier(a, b) <==> At(a) < At(b)
    ensures At(a) == At(b) <==> a.bus == b.bus && a.slot == b.slot && a.func == b.func
  {}

  lemma RowIn(cfg: Config, rows: seq<Row>, bus: nat, slot: nat, func: nat)
    requires ListsBelow(cfg, rows, END) && OnBus(bus, slot, func)
    requires forall i :: 0 <= i < |rows| ==>
      OnBus(rows[i].bus, rows[i].slot, rows[i].func) && rows[i] == RowAt(cfg, rows[i].bus, rows[i].slot, rows[i].func)
    ensures RowAt(cfg, bus, slot, func) in rows <==> Listed(cfg, Number(bus, slot, func))
  {
    var row, n := RowAt(cfg, bus, slot, func), Number(bus, slot, func);
    assert At(row) == n < END;
    if Listed(cfg, n) {
      assert Present(rows, n);
      var i :| 0 <= i < |rows| && At(rows[i]) == n;
      EarlierIs(rows[i], row);
    }
    if row in rows {
      var i :| 0 <= i < |rows| && rows[i] == row;
      assert Right(cfg, rows[i]);
    }
  }

  /** The search looks at this function, and it has the ids. */
  predicate Hit(cfg: Config, bus: nat, slot: nat, func: nat, vendor: nat, device: nat) {
    && OnBus(bus, slot, func) && (func == 0 || HasMore(cfg, bus, slot))
    && RowAt(cfg, bus, slot, func).vendor == vendor && RowAt(cfg, bus, slot, func).device == device
  }

  lemma FindingIs(cfg: Config, bus: nat, slot: nat, func: nat, vendor: nat, device: nat)
    requires OnBus(bus, slot, func)
    ensures Finding(cfg, vendor, device)(Number(bus, slot, func)) <==> Hit(cfg, bus, slot, func, vendor, device)
  {
    InBytes(cfg, bus, slot, func, Number(bus, slot, func));
    ListedIs(cfg, bus, slot, func);
  }

  /** The search, in bytes: the first hit in scan order, or none when there is none. */
  lemma FoundIs(cfg: Config, vendor: nat, device: nat, found: bool, bus: nat, slot: nat, func: nat)
    requires found ==> OnBus(bus, slot, func)
    requires IsFirst(Finding(cfg, vendor, device), if found then Some(Number(bus, slot, func)) else None)
    ensures found ==> Hit(cfg, bus, slot, func, vendor, device)
    ensures forall b: nat, s: nat, f: nat :: Hit(cfg, b, s, f, vendor, device) ==>
      found && !Earlier(RowAt(cfg, b, s, f), RowAt(cfg, bus, slot, func))
  {
    if found {
      FindingIs(cfg, bus, slot, func, vendor, device);
    }
    forall b: nat, s: nat, f: nat | Hit(cfg, b, s, f, vendor, device)
      ensures found && !Earlier(RowAt(cfg, b, s, f), RowAt(cfg, bus, slot, func))
    {
      FindingIs(cfg, b, s, f, vendor, device);
      if found {
        EarlierIs(RowAt(cfg, b, s, f), RowAt(cfg, bus, slot, func));
      }
    }
  }
}
