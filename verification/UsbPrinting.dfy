/** Printing a configuration tree as descriptors and reading it back. */
module UsbPrinting {
  import opened MachineWords
  import opened UsbDescriptors

  datatype Item = Endpoint(address: u8, attributes: u8, packet: u16, interval: u8, extra: Bytes) | Other(kind: u8, body: Bytes)

  datatype Interface = Interface(number: u8, alternate: u8, class_: u8, subclass: u8, protocol: u8, tail: Bytes, items: seq<Item>)

  /** `trailer` is the rest of the configuration header after its value. */
  datatype Tree = Tree(value: u8, trailer: Bytes, preamble: seq<Item>, interfaces: seq<Interface>)

  // ---- Printing ----

  predicate Printable(i: Item) {
    match i
    case Endpoint(_, _, _, _, extra) => |extra| <= 248
    case Other(kind, body) => |body| <= 253 && kind != 1 && kind != 2 && kind != 4 && kind != 5
  }

  function PrintItem(i: Item): (d: Bytes)
    requires Printable(i)
    ensures Framed(d)
  {
    match i
    case Endpoint(address, attributes, packet, interval, extra) =>
      [7 + |extra|, 5, address, attributes, packet % 0x100, packet / 0x100, interval] + extra
    case Other(kind, body) => [2 + |body|, kind] + body
  }

  function CountEndpoints(items: seq<Item>): nat {
    if items == [] then 0 else (if items[0].Endpoint? then 1 else 0) + CountEndpoints(items[1..])
  }

  ghost predicate AllPrintable(items: seq<Item>) {
    forall i | 0 <= i < |items| :: Printable(items[i])
  }

  ghost predicate PrintableInterface(f: Interface) {
    1 <= |f.tail| <= 247 && CountEndpoints(f.items) <= 255 && AllPrintable(f.items)
  }

  function PrintHeader(f: Interface): (d: Bytes)
    requires 1 <= |f.tail| <= 247 && CountEndpoints(f.items) <= 255
    ensures Framed(d)
  {
    [8 + |f.tail|, 4, f.number, f.alternate, CountEndpoints(f.items), f.class_, f.subclass, f.protocol] + f.tail
  }

  ghost function PrintItems(items: seq<Item>): (ds: seq<Bytes>)
    requires AllPrintable(items)
    ensures forall i | 0 <= i < |ds| :: Framed(ds[i])
  {
    if items == [] then [] else [PrintItem(items[0])] + PrintItems(items[1..])
  }

  ghost function PrintInterfaces(fs: seq<Interface>): (ds: seq<Bytes>)
    requires forall i | 0 <= i < |fs| :: PrintableInterface(fs[i])
    ensures forall i | 0 <= i < |ds| :: Framed(ds[i])
  {
    if fs == [] then []
    else
      assert PrintableInterface(fs[0]);
      [PrintHeader(fs[0])] + PrintItems(fs[0].items) + PrintInterfaces(fs[1..])
  }

  ghost predicate PrintableTree(t: Tree) {
    t.value != 0 && |t.trailer| == 3 && AllPrintable(t.preamble) && (forall i | 0 <= i < |t.preamble| :: t.preamble[i].Other?) &&
    (forall i | 0 <= i < |t.interfaces| :: PrintableInterface(t.interfaces[i])) && 9 + |Joined(Printed(t))| <= MAX_BYTES
  }

  ghost function Printed(t: Tree): seq<Bytes>
    requires AllPrintable(t.preamble) && forall i | 0 <= i < |t.interfaces| :: PrintableInterface(t.interfaces[i])
  {
    PrintItems(t.preamble) + PrintInterfaces(t.interfaces)
  }

  /** The bytes of the whole configuration. */
  ghost function Print(t: Tree): Bytes
    requires PrintableTree(t)
  {
    var n := 9 + |Joined(Printed(t))|;
    [9, 2, n % 0x100, n / 0x100, |t.interfaces| % 0x100, t.value] + t.trailer + Joined(Printed(t))
  }

  // ---- What the tree offers ----

  predicate Candidate(f: Interface) {
    f.alternate == 0 && f.class_ == 3 && f.subclass == 1 && f.protocol == 2
  }

  /** The first interrupt-IN endpoint among the items. */
  function FirstInterrupt(items: seq<Item>): Option<Item> {
    if items == [] then None
    else if items[0].Endpoint? && items[0].address >= 0x80 && items[0].attributes % 4 == 3 then Some(items[0])
    else FirstInterrupt(items[1..])
  }

  function UsableItem(i: Item, low: bool): bool
    requires i.Endpoint?
  {
    i.address % 16 != 0 && i.address / 16 % 8 == 0 && 3 <= i.packet <= (if low then 8 else 64) && i.interval != 0 && (low ==> i.interval >= 10)
  }

  function MouseOf(value: u8, number: u8, i: Item): Mouse
    requires i.Endpoint?
  {
    Mouse(value, number, i.address % 16, i.packet, i.interval)
  }

  lemma {:induction false} FirstInterruptIsEndpoint(items: seq<Item>)
    ensures FirstInterrupt(items).Some? ==> FirstInterrupt(items).value.Endpoint?
  {
    if items != [] { FirstInterruptIsEndpoint(items[1..]); }
  }

  /** The first interrupt-IN endpoint of the first boot-mouse interface that has one. */
  function Offer(value: u8, fs: seq<Interface>): Option<Mouse> {
    if fs == [] then None
    else
      FirstInterruptIsEndpoint(fs[0].items);
      var found := FirstInterrupt(fs[0].items);
      if Candidate(fs[0]) && found.Some? then Some(MouseOf(value, fs[0].number, found.value)) else Offer(value, fs[1..])
  }

  /** That endpoint, if there is one, obeys the limits. */
  predicate OfferUsable(fs: seq<Interface>, low: bool) {
    fs == [] ||
    (FirstInterruptIsEndpoint(fs[0].items);
     var found := FirstInterrupt(fs[0].items);
     if Candidate(fs[0]) && found.Some? then UsableItem(found.value, low) else OfferUsable(fs[1..], low))
  }

  // ---- Reading it back ----

  function ScanFrom(s: Scanner, ds: seq<Bytes>, value: u8, low: bool): Option<Scanner>
    decreases |ds|
  {
    if ds == [] then Some(s)
    else match Advance(s, ds[0], value, low)
      case None => None
      case Some(next) => ScanFrom(next, ds[1..], value, low)
  }

  lemma {:induction false} ScanFromConcat(s: Scanner, a: seq<Bytes>, b: seq<Bytes>, value: u8, low: bool)
    ensures ScanFrom(s, a + b, value, low) == match ScanFrom(s, a, value, low) case None => None case Some(t) => ScanFrom(t, b, value, low)
    decreases |a|
  {
    hide Advance;
    if a == [] {
      assert a + b == b;
    } else {
      assert (a + b)[1..] == a[1..] + b;
      var next := Advance(s, a[0], value, low);
      if next.Some? { ScanFromConcat(next.value, a[1..], b, value, low); }
    }
  }

  /** Scanning from the left and from the right agree. */
  lemma {:induction false} ScanIsScanFrom(ds: seq<Bytes>, value: u8, low: bool)
    ensures Scan(ds, value, low) == ScanFrom(START, ds, value, low)
    decreases |ds|
  {
    hide Advance;
    if ds != [] {
      var before, d := ds[..|ds| - 1], ds[|ds| - 1];
      ScanIsScanFrom(before, value, low);
      ScanFromConcat(START, before, [d], value, low);
      var last: seq<Bytes> := [d];
      assert before + last == ds && last[1..] == [];
    }
  }

  /** The parser's state after the items of one interface. */
  function AfterItems(s: Scanner, items: seq<Item>, value: u8): Scanner {
    FirstInterruptIsEndpoint(items);
    var found := FirstInterrupt(items);
    Scanner(s.have, s.endpoints + CountEndpoints(items), s.expected, s.number, s.candidate,
            if s.found.None? && s.candidate && found.Some? then Some(MouseOf(value, s.number, found.value)) else s.found)
  }

  lemma OneItem(i: Item)
    ensures CountEndpoints([i]) == if i.Endpoint? then 1 else 0
    ensures FirstInterrupt([i]) == if i.Endpoint? && i.address >= 0x80 && i.attributes % 4 == 3 then Some(i) else None
  {
    var one := [i];
    assert one[0] == i && one[1..] == [];
  }

  lemma AdvanceEndpointItem(s: Scanner, i: Item, value: u8, low: bool)
    requires Printable(i) && i.Endpoint? && s.have && s.endpoints < s.expected
    requires s.candidate && s.found.None? && i.address >= 0x80 && i.attributes % 4 == 3 ==> UsableItem(i, low)
    ensures Advance(s, PrintItem(i), value, low) == Some(AfterItems(s, [i], value))
  {
    var d := PrintItem(i);
    OneItem(i);
    assert d[1] == 5 && d[2] == i.address && d[3] == i.attributes && Read16(d, 4) == i.packet && d[6] == i.interval && |d| >= 7;
    hide PrintItem, CountEndpoints, FirstInterrupt;
  }

  lemma AdvanceItem(s: Scanner, i: Item, value: u8, low: bool)
    requires Printable(i)
    requires i.Endpoint? ==> s.have && s.endpoints < s.expected
    requires i.Endpoint? && s.candidate && s.found.None? && i.address >= 0x80 && i.attributes % 4 == 3 ==> UsableItem(i, low)
    ensures Advance(s, PrintItem(i), value, low) == Some(AfterItems(s, [i], value))
  {
    if i.Endpoint? {
      AdvanceEndpointItem(s, i, value, low);
    } else {
      OneItem(i);
      assert PrintItem(i)[1] == i.kind;
      hide CountEndpoints, FirstInterrupt;
    }
  }

  lemma AfterFirst(s: Scanner, items: seq<Item>, value: u8)
    requires items != []
    ensures AfterItems(AfterItems(s, [items[0]], value), items[1..], value) == AfterItems(s, items, value)
    ensures CountEndpoints(items) == CountEndpoints([items[0]]) + CountEndpoints(items[1..])
    ensures FirstInterrupt(items) == if FirstInterrupt([items[0]]).Some? then FirstInterrupt([items[0]]) else FirstInterrupt(items[1..])
  {
    OneItem(items[0]);
  }

  lemma {:induction false} ScanItems(s: Scanner, items: seq<Item>, value: u8, low: bool)
    requires AllPrintable(items)
    requires s.have || forall i | 0 <= i < |items| :: items[i].Other?
    requires s.endpoints + CountEndpoints(items) <= s.expected
    requires s.candidate && s.found.None? && FirstInterrupt(items).Some? ==>
      FirstInterrupt(items).value.Endpoint? && UsableItem(FirstInterrupt(items).value, low)
    ensures ScanFrom(s, PrintItems(items), value, low) == Some(AfterItems(s, items, value))
    decreases |items|
  {
    hide Advance, UsableItem, PrintItem;
    if items != [] {
      var i := items[0];
      assert Printable(i);
      OneItem(i);
      AfterFirst(s, items, value);
      AdvanceItem(s, i, value, low);
      ScanItems(AfterItems(s, [i], value), items[1..], value, low);
      assert PrintItems(items)[0] == PrintItem(i) && PrintItems(items)[1..] == PrintItems(items[1..]);
    }
  }

  lemma AdvanceHeader(s: Scanner, f: Interface, value: u8, low: bool)
    requires PrintableInterface(f) && Complete(s)
    ensures Advance(s, PrintHeader(f), value, low) == Some(Scanner(true, 0, CountEndpoints(f.items), f.number, Candidate(f), s.found))
  {
  }

  /** The parser's state after a whole interface. */
  function AfterInterface(s: Scanner, f: Interface, value: u8): Scanner {
    AfterItems(Scanner(true, 0, CountEndpoints(f.items), f.number, Candidate(f), s.found), f.items, value)
  }

  lemma ScanInterface(s: Scanner, f: Interface, value: u8, low: bool)
    requires PrintableInterface(f) && Complete(s)
    requires s.found.None? && Candidate(f) && FirstInterrupt(f.items).Some? ==>
      FirstInterrupt(f.items).value.Endpoint? && UsableItem(FirstInterrupt(f.items).value, low)
    ensures ScanFrom(s, [PrintHeader(f)] + PrintItems(f.items), value, low) == Some(AfterInterface(s, f, value))
    ensures Complete(AfterInterface(s, f, value))
  {
    AdvanceHeader(s, f, value, low);
    ScanItems(Scanner(true, 0, CountEndpoints(f.items), f.number, Candidate(f), s.found), f.items, value, low);
    hide Advance, PrintHeader, PrintItems, UsableItem, CountEndpoints, FirstInterrupt, Candidate;
    assert ([PrintHeader(f)] + PrintItems(f.items))[1..] == PrintItems(f.items);
  }

  lemma {:induction false} ScanInterfaces(s: Scanner, fs: seq<Interface>, value: u8, low: bool)
    requires (forall i | 0 <= i < |fs| :: PrintableInterface(fs[i])) && Complete(s)
    requires s.found.None? ==> OfferUsable(fs, low)
    ensures
      var r := ScanFrom(s, PrintInterfaces(fs), value, low);
      r.Some? && Complete(r.value) && r.value.found == if s.found.Some? then s.found else Offer(value, fs)
    decreases |fs|
  {
    hide Advance, PrintHeader, PrintItems, UsableItem, CountEndpoints, FirstInterrupt, Candidate, PrintableInterface, Complete;
    if fs != [] {
      var f, rest := fs[0], PrintInterfaces(fs[1..]);
      assert PrintableInterface(f);
      FirstInterruptIsEndpoint(f.items);
      ScanInterface(s, f, value, low);
      PrintableParts(f);
      ScanFromConcat(s, [PrintHeader(f)] + PrintItems(f.items), rest, value, low);
      ScanInterfaces(AfterInterface(s, f, value), fs[1..], value, low);
    }
  }

  lemma PrintableParts(f: Interface)
    requires PrintableInterface(f)
    ensures 1 <= |f.tail| <= 247 && CountEndpoints(f.items) <= 255 && AllPrintable(f.items)
  {
  }

  lemma NoEndpoints(items: seq<Item>)
    requires forall i | 0 <= i < |items| :: items[i].Other?
    ensures CountEndpoints(items) == 0
  {
  }

  /** Printing any well-formed tree and parsing the bytes returns the endpoint the tree offers. */
  lemma PrintThenParse(t: Tree, low: bool)
    requires PrintableTree(t) && OfferUsable(t.interfaces, low)
    ensures Parse(Print(t), low) == Some(Offer(t.value, t.interfaces))
  {
    var data, ds := Print(t), Printed(t);
    var a, b := PrintItems(t.preamble), PrintInterfaces(t.interfaces);
    assert data[9..] == Joined(ds) && HeaderOk(data) && data[5] == t.value by { HeaderReads(t); }
    CutIsTiling(data[9..], ds);
    NoEndpoints(t.preamble);
    ScanItems(START, t.preamble, t.value, low);
    ScanFromConcat(START, a, b, t.value, low);
    var s := AfterItems(START, t.preamble, t.value);
    ScanInterfaces(s, t.interfaces, t.value, low);
    ScanIsScanFrom(ds, t.value, low);
  }

  lemma HeaderReads(t: Tree)
    requires PrintableTree(t)
    ensures Print(t)[9..] == Joined(Printed(t)) && HeaderOk(Print(t)) && Print(t)[5] == t.value
  {
    HeaderOf(Joined(Printed(t)), t.value, |t.interfaces| % 0x100, t.trailer);
    hide Printed, Joined, HeaderOk;
  }

  lemma HeaderOf(body: Bytes, value: u8, count: u8, trailer: Bytes)
    requires |trailer| == 3 && value != 0 && 9 + |body| <= MAX_BYTES
    ensures
      var n := 9 + |body|;
      var data := [9, 2, n % 0x100, n / 0x100, count, value] + trailer + body;
      data[9..] == body && HeaderOk(data) && data[5] == value
  {
    var n := 9 + |body|;
    var head: Bytes := [9, 2, n % 0x100, n / 0x100, count, value];
    var data := head + trailer + body;
    assert data[0] == 9 && data[1] == 2 && data[2] == n % 0x100 && data[3] == n / 0x100 && data[5] == value;
    assert data[9..] == body;
  }

  // ---- An ordinary mouse ----

  /** One configuration with one interface: its descriptor, a HID descriptor, and endpoint 1 IN, interrupt,
      four bytes every ten milliseconds. `protocol` is 2 for a boot mouse and 1 for a boot keyboard. */
  function Plain(protocol: u8): Bytes {
    [9, 2, 34, 0, 1, 1, 0, 0xA0, 50] + Joined(PlainDescriptors(protocol))
  }

  function PlainDescriptors(protocol: u8): seq<Bytes> {
    [[9, 4, 0, 0, 1, 3, 1, protocol, 0], [9, 0x21, 0x10, 1, 0, 1, 0x22, 52, 0], [7, 5, 0x81, 3, 4, 0, 10]]
  }

  /** Such a mouse is found, such a keyboard is no mouse. */
  lemma PlainMouse(protocol: u8, low: bool)
    ensures Parse(Plain(protocol), low) == if protocol == 2 then Some(Some(Mouse(1, 0, 1, 4, 10))) else Some(None)
  {
    var ds := PlainDescriptors(protocol);
    var data := Plain(protocol);
    PlainBytes(protocol);
    assert data[9..] == Joined(ds);
    CutIsTiling(data[9..], ds);
    PlainScan(protocol, low);
    hide Cut, Scan, Joined, Plain, PlainDescriptors;
  }

  lemma PlainBytes(protocol: u8)
    ensures |Joined(PlainDescriptors(protocol))| == 25
  {
    var ds := PlainDescriptors(protocol);
    assert |Joined(ds)| == |ds[0]| + |Joined(ds[1..])|;
    assert |Joined(ds[1..])| == |ds[1]| + |Joined(ds[1..][1..])|;
    assert ds[1..][1..] == [ds[2]] && Joined([ds[2]]) == ds[2] + Joined([]);
  }

  lemma PlainScan(protocol: u8, low: bool)
    ensures Scan(PlainDescriptors(protocol), 1, low) ==
      Some(Scanner(true, 1, 1, 0, protocol == 2, if protocol == 2 then Some(Mouse(1, 0, 1, 4, 10)) else None))
  {
    var ds := PlainDescriptors(protocol);
    assert ds[..3] == ds && ds[..2][..1] == ds[..1];
    assert Scan([], 1, low) == Some(START);
    assert Scan(ds[..1], 1, low) == Advance(START, ds[0], 1, low);
    assert Scan(ds[..2], 1, low) == Scan(ds[..1], 1, low);
  }
}
