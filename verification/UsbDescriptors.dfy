/** Finding the boot mouse in a USB configuration (section 9.6 of USB 2.0): the one-pass parser
    against a declarative reading of the descriptor stream. */
module UsbDescriptors {
  import opened MachineWords

  const MAX_BYTES := 4096     // USB_CONFIGURATION_MAX_BYTES

  type Bytes = seq<u8>

  /** usb_mouse_interface. */
  datatype Mouse = Mouse(configuration: u8, number: u8, endpoint: u8, packet: nat, interval: u8)

  function Read16(d: Bytes, i: nat): nat
    requires i + 1 < |d|
  {
    d[i] as int + 0x100 * (d[i + 1] as int)
  }

  /** The configuration header announces itself, the length of the whole stream and a nonzero value. */
  predicate HeaderOk(data: Bytes) {
    9 <= |data| <= MAX_BYTES && data[0] == 9 && data[1] == 2 && Read16(data, 2) == |data| && data[5] != 0
  }

  // ---- The stream as descriptors ----

  /** A descriptor starts with its own length. */
  predicate Framed(d: Bytes) {
    |d| >= 2 && d[0] == |d|
  }

  function Joined(ds: seq<Bytes>): Bytes {
    if ds == [] then [] else ds[0] + Joined(ds[1..])
  }

  ghost predicate Tiles(rest: Bytes, ds: seq<Bytes>) {
    Joined(ds) == rest && forall i | 0 <= i < |ds| :: Framed(ds[i])
  }

  function Cut(rest: Bytes): Option<seq<Bytes>>
    decreases |rest|
  {
    if rest == [] then Some([])
    else if |rest| < 2 || rest[0] < 2 || rest[0] > |rest| then None
    else match Cut(rest[rest[0]..])
      case None => None
      case Some(ds) => Some([rest[..rest[0]]] + ds)
  }

  /** At most one tiling exists, and cutting finds it. */
  lemma {:induction false} CutIsTiling(rest: Bytes, ds: seq<Bytes>)
    ensures Cut(rest) == Some(ds) <==> Tiles(rest, ds)
    decreases |rest|
  {
    if Cut(rest) == Some(ds) && rest != [] {
      CutIsTiling(rest[rest[0]..], ds[1..]);
      assert ds[0] + Joined(ds[1..]) == rest;
      forall i | 0 <= i < |ds| ensures Framed(ds[i]) { if i > 0 { assert ds[i] == ds[1..][i - 1]; } }
    }
    if Tiles(rest, ds) && ds != [] {
      assert Framed(ds[0]) && rest[..rest[0]] == ds[0] && rest[rest[0]..] == Joined(ds[1..]);
      CutIsTiling(rest[rest[0]..], ds[1..]);
      assert ds == [ds[0]] + ds[1..];
    }
  }

  // ---- Declarative reading ----

  predicate IsInterface(d: Bytes) { |d| >= 2 && d[1] == 4 }
  predicate IsEndpoint(d: Bytes) { |d| >= 2 && d[1] == 5 }

  /** bNumEndpoints. */
  function Announced(d: Bytes): nat {
    if |d| > 4 then d[4] else 0
  }

  /** The interface a position belongs to: the last one before it, or -1. */
  function Owner(ds: seq<Bytes>, i: nat): (o: int)
    requires i <= |ds|
    ensures -1 <= o < i && (o >= 0 ==> IsInterface(ds[o])) && forall j | o < j < i :: !IsInterface(ds[j])
  {
    if i == 0 then -1 else if IsInterface(ds[i - 1]) then i - 1 else Owner(ds, i - 1)
  }

  /** Endpoint descriptors among the first `n` that belong to interface `o`. */
  function EndpointsOf(ds: seq<Bytes>, o: int, n: nat): nat
    requires n <= |ds|
  {
    if n == 0 then 0 else EndpointsOf(ds, o, n - 1) + if IsEndpoint(ds[n - 1]) && Owner(ds, n - 1) == o then 1 else 0
  }

  /** Kind, size and place of a single descriptor. */
  predicate Placed(ds: seq<Bytes>, i: nat)
    requires i < |ds|
  {
    |ds[i]| >= 2 && ds[i][1] != 1 && ds[i][1] != 2 && (IsInterface(ds[i]) ==> |ds[i]| >= 9) &&
    (IsEndpoint(ds[i]) ==> |ds[i]| >= 7 && Owner(ds, i) >= 0)
  }

  /** Every descriptor is in place, and every interface has as many endpoints as it announces. */
  ghost predicate WellFormed(ds: seq<Bytes>) {
    (forall i | 0 <= i < |ds| :: Placed(ds, i)) &&
    forall i | 0 <= i < |ds| && IsInterface(ds[i]) :: EndpointsOf(ds, i, |ds|) == Announced(ds[i])
  }

  /** Alternate setting 0 of a HID boot mouse. */
  predicate BootMouse(d: Bytes) {
    |d| >= 9 && d[3] == 0 && d[5] == 3 && d[6] == 1 && d[7] == 2
  }

  /** An interrupt-IN endpoint of a boot-mouse interface. */
  predicate Matches(ds: seq<Bytes>, i: nat)
    requires i < |ds|
  {
    IsEndpoint(ds[i]) && |ds[i]| >= 7 && Owner(ds, i) >= 0 && BootMouse(ds[Owner(ds, i)]) && ds[i][2] >= 0x80 && ds[i][3] % 4 == 3
  }

  predicate Usable(d: Bytes, low: bool)
    requires |d| >= 7
  {
    d[2] % 16 != 0 && d[2] / 16 % 8 == 0 && 3 <= Read16(d, 4) <= (if low then 8 else 64) && d[6] != 0 && (low ==> d[6] >= 10)
  }

  function FirstMatch(ds: seq<Bytes>, n: nat): (i: nat)
    requires n <= |ds|
    ensures i <= n && (i < n ==> Matches(ds, i)) && forall j | 0 <= j < i :: !Matches(ds, j)
  {
    if n == 0 then 0
    else
      var i := FirstMatch(ds, n - 1);
      if i < n - 1 then i else if Matches(ds, n - 1) then n - 1 else n
  }

  function Selected(configuration: u8, ds: seq<Bytes>, i: nat): Mouse
    requires i < |ds| && Matches(ds, i)
  {
    Mouse(configuration, ds[Owner(ds, i)][2], ds[i][2] % 16, Read16(ds[i], 4), ds[i][6])
  }

  /** What the device must satisfy: well formed, and its first matching endpoint usable. */
  ghost predicate Accepted(ds: seq<Bytes>, low: bool) {
    WellFormed(ds) && (FirstMatch(ds, |ds|) < |ds| ==> Usable(ds[FirstMatch(ds, |ds|)], low))
  }

  // ---- The parser's state ----

  datatype Scanner = Scanner(have: bool, endpoints: nat, expected: nat, number: u8, candidate: bool, found: Option<Mouse>)

  const START := Scanner(false, 0, 0, 0, false, None)

  /** What one descriptor does to the state; None rejects the stream. */
  function Advance(s: Scanner, d: Bytes, configuration: u8, low: bool): Option<Scanner> {
    if |d| < 2 then None
    else if d[1] == 4 then
      if |d| < 9 || (s.have && s.endpoints != s.expected) then None
      else Some(Scanner(true, 0, d[4], d[2], BootMouse(d), s.found))
    else if d[1] == 5 then
      if |d| < 7 || !s.have || s.endpoints + 1 > s.expected then None
      else if s.candidate && s.found.None? && d[2] >= 0x80 && d[3] % 4 == 3 then
        if !Usable(d, low) then None
        else Some(Scanner(s.have, s.endpoints + 1, s.expected, s.number, s.candidate,
                          Some(Mouse(configuration, s.number, d[2] % 16, Read16(d, 4), d[6]))))
      else Some(Scanner(s.have, s.endpoints + 1, s.expected, s.number, s.candidate, s.found))
    else if d[1] == 2 || d[1] == 1 then None
    else Some(s)
  }

  function Scan(ds: seq<Bytes>, configuration: u8, low: bool): Option<Scanner>
    decreases |ds|
  {
    if ds == [] then Some(START)
    else match Scan(ds[..|ds| - 1], configuration, low)
      case None => None
      case Some(s) => Advance(s, ds[|ds| - 1], configuration, low)
  }

  predicate Complete(s: Scanner) {
    s.have ==> s.endpoints == s.expected
  }

  // ---- The state means what the declarative reading says ----

  ghost predicate AllPlaced(ds: seq<Bytes>) {
    forall i | 0 <= i < |ds| :: Placed(ds, i)
  }

  /** Position `i`, if it is an interface, has its announced number of endpoints. */
  ghost predicate Full(ds: seq<Bytes>, i: nat)
    requires i < |ds|
  {
    IsInterface(ds[i]) ==> EndpointsOf(ds, i, |ds|) == Announced(ds[i])
  }

  /** Every interface but `o` is full. */
  ghost predicate OthersComplete(ds: seq<Bytes>, o: int) {
    forall i | 0 <= i < |ds| && i != o :: Full(ds, i)
  }

  /** Every descriptor so far is in place, all interfaces but the current one are complete, the
      current one is not over-full, and the first match so far is usable. */
  ghost predicate Promising(ds: seq<Bytes>, low: bool) {
    var o, m := Owner(ds, |ds|), FirstMatch(ds, |ds|);
    AllPlaced(ds) && OthersComplete(ds, o) &&
    (o >= 0 ==> EndpointsOf(ds, o, |ds|) <= Announced(ds[o])) && (m < |ds| ==> Usable(ds[m], low))
  }

  ghost predicate Reflects(s: Scanner, ds: seq<Bytes>, configuration: u8) {
    var o, m := Owner(ds, |ds|), FirstMatch(ds, |ds|);
    (s.have <==> o >= 0) &&
    (o >= 0 ==> |ds[o]| >= 9 && s.endpoints == EndpointsOf(ds, o, |ds|) && s.expected == Announced(ds[o]) && s.number == ds[o][2] && s.candidate == BootMouse(ds[o])) &&
    s.found == if m < |ds| then Some(Selected(configuration, ds, m)) else None
  }

  /** Looking back is not affected by what follows. */
  lemma {:induction false} OwnerPrefix(ds: seq<Bytes>, d: Bytes, i: nat)
    requires i <= |ds|
    ensures Owner(ds + [d], i) == Owner(ds, i)
  {
    if i > 0 { OwnerPrefix(ds, d, i - 1); }
  }

  lemma {:induction false} EndpointsPrefix(ds: seq<Bytes>, d: Bytes, o: int, n: nat)
    requires n <= |ds|
    ensures EndpointsOf(ds + [d], o, n) == EndpointsOf(ds, o, n)
  {
    if n > 0 {
      EndpointsPrefix(ds, d, o, n - 1);
      OwnerPrefix(ds, d, n - 1);
    }
  }

  lemma {:induction false} EndpointsBefore(ds: seq<Bytes>, o: nat, n: nat)
    requires n <= |ds| && o >= n
    ensures EndpointsOf(ds, o, n) == 0
  {
    if n > 0 { EndpointsBefore(ds, o, n - 1); }
  }

  lemma MatchesPrefix(ds: seq<Bytes>, d: Bytes, i: nat)
    requires i < |ds|
    ensures Matches(ds + [d], i) == Matches(ds, i)
  {
    OwnerPrefix(ds, d, i);
  }

  lemma {:induction false} FirstMatchPrefix(ds: seq<Bytes>, d: Bytes, n: nat)
    requires n <= |ds|
    ensures FirstMatch(ds + [d], n) == FirstMatch(ds, n)
  {
    if n > 0 {
      FirstMatchPrefix(ds, d, n - 1);
      MatchesPrefix(ds, d, n - 1);
    }
  }

  lemma PlacedPrefix(ds: seq<Bytes>, d: Bytes, i: nat)
    requires i < |ds|
    ensures Placed(ds + [d], i) == Placed(ds, i)
  {
    OwnerPrefix(ds, d, i);
  }

  /** What the last descriptor adds to each notion. */
  lemma LastAdded(ds: seq<Bytes>, d: Bytes)
    ensures
      var all, n := ds + [d], |ds|;
      Owner(all, n) == Owner(ds, n) && Owner(all, n + 1) == (if IsInterface(d) then n else Owner(ds, n)) &&
      (forall o: int :: EndpointsOf(all, o, n + 1) == EndpointsOf(ds, o, n) + if IsEndpoint(d) && Owner(ds, n) == o then 1 else 0) &&
      (forall i | 0 <= i < n :: Placed(all, i) == Placed(ds, i)) &&
      FirstMatch(all, n) == FirstMatch(ds, n) &&
      FirstMatch(all, n + 1) == (if FirstMatch(ds, n) < n then FirstMatch(ds, n) else if Matches(all, n) then n else n + 1)
  {
    var all, n := ds + [d], |ds|;
    OwnerPrefix(ds, d, n);
    FirstMatchPrefix(ds, d, n);
    forall o: int ensures EndpointsOf(all, o, n + 1) == EndpointsOf(ds, o, n) + if IsEndpoint(d) && Owner(ds, n) == o then 1 else 0 {
      EndpointsPrefix(ds, d, o, n);
    }
    forall i | 0 <= i < n ensures Placed(all, i) == Placed(ds, i) { PlacedPrefix(ds, d, i); }
  }

  lemma PlacedStep(ds: seq<Bytes>, d: Bytes)
    ensures AllPlaced(ds + [d]) <==> AllPlaced(ds) && Placed(ds + [d], |ds|)
    ensures Placed(ds + [d], |ds|) <==>
      |d| >= 2 && d[1] != 1 && d[1] != 2 && (d[1] == 4 ==> |d| >= 9) && (d[1] == 5 ==> |d| >= 7 && Owner(ds, |ds|) >= 0)
  {
    var all, n := ds + [d], |ds|;
    LastAdded(ds, d);
    hide Owner, EndpointsOf, FirstMatch;
    assert all[n] == d && forall i | 0 <= i < n :: all[i] == ds[i];
    if AllPlaced(all) {
      forall i | 0 <= i < n ensures Placed(ds, i) { assert Placed(all, i); }
    }
  }

  lemma FullStep(ds: seq<Bytes>, d: Bytes, i: nat)
    requires i < |ds|
    ensures i != Owner(ds, |ds|) || !IsEndpoint(d) ==> Full(ds + [d], i) == Full(ds, i)
  {
    var all, n := ds + [d], |ds|;
    EndpointsPrefix(ds, d, i, n);
    OwnerPrefix(ds, d, n);
    assert all[n] == d && all[i] == ds[i] && |all| == n + 1;
    assert EndpointsOf(all, i, n + 1) == EndpointsOf(all, i, n) + if IsEndpoint(d) && Owner(all, n) == i then 1 else 0;
    hide EndpointsOf, Owner, IsEndpoint;
  }

  /** A new interface closes the previous one; anything else leaves the earlier ones alone. */
  lemma OthersStep(ds: seq<Bytes>, d: Bytes)
    ensures
      var all, n, o := ds + [d], |ds|, Owner(ds, |ds|);
      if IsInterface(d) then OthersComplete(all, n) <==> OthersComplete(ds, o) && (o >= 0 ==> Full(ds, o))
      else OthersComplete(all, o) <==> OthersComplete(ds, o)
  {
    var all, n, o := ds + [d], |ds|, Owner(ds, |ds|);
    forall i | 0 <= i < n ensures i != o || !IsEndpoint(d) ==> Full(all, i) == Full(ds, i) { FullStep(ds, d, i); }
    if !IsInterface(d) { assert Full(all, n) by { assert all[n] == d; } }
    hide Owner, Full;
    if IsInterface(d) { InterfaceStep(ds, d, o); } else { OtherStep(ds, d, o); }
  }

  lemma InterfaceStep(ds: seq<Bytes>, d: Bytes, o: int)
    requires -1 <= o < |ds| && forall i | 0 <= i < |ds| :: Full(ds + [d], i) == Full(ds, i)
    ensures OthersComplete(ds + [d], |ds|) <==> OthersComplete(ds, o) && (o >= 0 ==> Full(ds, o))
  {
    hide Full;
    if OthersComplete(ds + [d], |ds|) {
      forall i | 0 <= i < |ds| ensures Full(ds, i) { assert Full(ds + [d], i); }
    }
  }

  lemma OtherStep(ds: seq<Bytes>, d: Bytes, o: int)
    requires -1 <= o < |ds| && (forall i | 0 <= i < |ds| && i != o :: Full(ds + [d], i) == Full(ds, i)) && Full(ds + [d], |ds|)
    ensures OthersComplete(ds + [d], o) <==> OthersComplete(ds, o)
  {
    hide Full;
    if OthersComplete(ds + [d], o) {
      forall i | 0 <= i < |ds| && i != o ensures Full(ds, i) { assert Full(ds + [d], i); }
    }
  }

  /** An interface descriptor: accepted when it is long enough and its predecessor is complete. */
  lemma AdvanceInterface(s: Scanner, ds: seq<Bytes>, d: Bytes, configuration: u8, low: bool)
    requires |d| >= 2 && d[1] == 4 && Promising(ds, low) && Reflects(s, ds, configuration)
    ensures Advance(s, d, configuration, low).Some? <==> Promising(ds + [d], low)
    ensures Advance(s, d, configuration, low).Some? ==> Reflects(Advance(s, d, configuration, low).value, ds + [d], configuration)
  {
    var all, n, m := ds + [d], |ds|, FirstMatch(ds, |ds|);
    LastAdded(ds, d);
    EndpointsBefore(ds, n, n);
    PlacedStep(ds, d);
    OthersStep(ds, d);
    if m < n { OwnerPrefix(ds, d, m); }
    hide Owner, EndpointsOf, FirstMatch, Usable, Placed, AllPlaced, OthersComplete, BootMouse;
    assert all[n] == d && forall i | 0 <= i < n :: all[i] == ds[i];
  }

  /** An endpoint descriptor: accepted when it belongs to an interface with room for it and, if it
      is the first match, is usable. */
  lemma AdvanceEndpoint(s: Scanner, ds: seq<Bytes>, d: Bytes, configuration: u8, low: bool)
    requires |d| >= 2 && d[1] == 5 && Promising(ds, low) && Reflects(s, ds, configuration)
    ensures Advance(s, d, configuration, low).Some? <==> Promising(ds + [d], low)
    ensures Advance(s, d, configuration, low).Some? ==> Reflects(Advance(s, d, configuration, low).value, ds + [d], configuration)
  {
    var all, n, m := ds + [d], |ds|, FirstMatch(ds, |ds|);
    LastAdded(ds, d);
    PlacedStep(ds, d);
    OthersStep(ds, d);
    if m < n { OwnerPrefix(ds, d, m); }
    hide Owner, EndpointsOf, FirstMatch, Usable, Placed, AllPlaced, OthersComplete, BootMouse;
    assert all[n] == d && forall i | 0 <= i < n :: all[i] == ds[i];
  }

  lemma AdvanceOther(s: Scanner, ds: seq<Bytes>, d: Bytes, configuration: u8, low: bool)
    requires |d| >= 2 && d[1] != 4 && d[1] != 5 && Promising(ds, low) && Reflects(s, ds, configuration)
    ensures Advance(s, d, configuration, low).Some? <==> Promising(ds + [d], low)
    ensures Advance(s, d, configuration, low).Some? ==> Reflects(Advance(s, d, configuration, low).value, ds + [d], configuration)
  {
    var all, n, m := ds + [d], |ds|, FirstMatch(ds, |ds|);
    LastAdded(ds, d);
    PlacedStep(ds, d);
    OthersStep(ds, d);
    if m < n { OwnerPrefix(ds, d, m); }
    hide Owner, EndpointsOf, FirstMatch, Usable, Placed, AllPlaced, OthersComplete, BootMouse;
    assert all[n] == d && forall i | 0 <= i < n :: all[i] == ds[i];
  }

  lemma TooShort(s: Scanner, ds: seq<Bytes>, d: Bytes, configuration: u8, low: bool)
    requires |d| < 2
    ensures Advance(s, d, configuration, low).None? && !Promising(ds + [d], low)
  {
    PlacedStep(ds, d);
  }

  /** One more descriptor: the parser goes on exactly when the stream stays promising. */
  lemma AdvanceReflects(s: Scanner, ds: seq<Bytes>, d: Bytes, configuration: u8, low: bool)
    requires Promising(ds, low) && Reflects(s, ds, configuration)
    ensures Advance(s, d, configuration, low).Some? <==> Promising(ds + [d], low)
    ensures Advance(s, d, configuration, low).Some? ==> Reflects(Advance(s, d, configuration, low).value, ds + [d], configuration)
  {
    hide Advance, Promising, Reflects;
    if |d| < 2 {
      TooShort(s, ds, d, configuration, low);
    } else if d[1] == 4 {
      AdvanceInterface(s, ds, d, configuration, low);
    } else if d[1] == 5 {
      AdvanceEndpoint(s, ds, d, configuration, low);
    } else {
      AdvanceOther(s, ds, d, configuration, low);
    }
  }

  lemma PromisingBefore(ds: seq<Bytes>, d: Bytes, low: bool)
    requires Promising(ds + [d], low)
    ensures Promising(ds, low)
  {
    var all, n := ds + [d], |ds|;
    LastAdded(ds, d);
    PlacedStep(ds, d);
    OthersStep(ds, d);
    hide Owner, EndpointsOf, FirstMatch, Usable, Placed, AllPlaced, OthersComplete, Announced;
    assert all[n] == d && forall i | 0 <= i < n :: all[i] == ds[i];
  }

  lemma {:induction false} ScanMeans(ds: seq<Bytes>, configuration: u8, low: bool)
    ensures Scan(ds, configuration, low).Some? <==> Promising(ds, low)
    ensures Scan(ds, configuration, low).Some? ==> Reflects(Scan(ds, configuration, low).value, ds, configuration)
    decreases |ds|
  {
    if ds != [] {
      var before, d := ds[..|ds| - 1], ds[|ds| - 1];
      assert ds == before + [d];
      ScanMeans(before, configuration, low);
      if Scan(before, configuration, low).Some? {
        AdvanceReflects(Scan(before, configuration, low).value, before, d, configuration, low);
      } else if Promising(ds, low) {
        PromisingBefore(before, d, low);
      }
    }
  }

  /** A complete, promising stream is an accepted one, and the other way round. */
  lemma AcceptedIffComplete(s: Scanner, ds: seq<Bytes>, configuration: u8, low: bool)
    requires Promising(ds, low) ==> Reflects(s, ds, configuration)
    ensures Accepted(ds, low) <==> Promising(ds, low) && Complete(s)
  {
    hide EndpointsOf, FirstMatch, Usable, Matches;
    var o := Owner(ds, |ds|);
    if Accepted(ds, low) {
      forall i | 0 <= i < |ds| ensures Full(ds, i) {}
      assert Promising(ds, low);
    } else if Promising(ds, low) && Complete(s) {
      forall i | 0 <= i < |ds| && IsInterface(ds[i]) ensures EndpointsOf(ds, i, |ds|) == Announced(ds[i]) {
        if i != o { assert Full(ds, i); }
      }
    }
  }

  // ---- The parser as a function ----

  /** The verdict on a whole descriptor list. */
  function Verdict(ds: seq<Bytes>, configuration: u8, low: bool): Option<Option<Mouse>> {
    match Scan(ds, configuration, low)
    case None => None
    case Some(s) => if Complete(s) then Some(s.found) else None
  }

  /** None for a rejected stream, otherwise the endpoint found, if any. */
  function Parse(data: Bytes, low: bool): Option<Option<Mouse>> {
    if !HeaderOk(data) then None
    else match Cut(data[9..])
      case None => None
      case Some(ds) => Verdict(ds, data[5], low)
  }

  /** The parse succeeds exactly when the stream tiles into acceptable descriptors, and finds the
      first matching endpoint. */
  lemma ParseIsDeclarative(data: Bytes, low: bool)
    requires HeaderOk(data)
    ensures Parse(data, low).Some? <==> exists ds :: Tiles(data[9..], ds) && Accepted(ds, low)
    ensures forall ds | Tiles(data[9..], ds) && Accepted(ds, low) ::
      Parse(data, low) == Some(if FirstMatch(ds, |ds|) < |ds| then Some(Selected(data[5], ds, FirstMatch(ds, |ds|))) else None)
  {
    hide Accepted, Promising, Reflects;
    var rest := data[9..];
    forall ds | Tiles(rest, ds) ensures Cut(rest) == Some(ds) { CutIsTiling(rest, ds); }
    if Cut(rest).Some? {
      var ds := Cut(rest).value;
      CutIsTiling(rest, ds);
      ScanMeans(ds, data[5], low);
      if Promising(ds, low) {
        var s := Scan(ds, data[5], low).value;
        AcceptedIffComplete(s, ds, data[5], low);
        FoundFirst(s, ds, data[5]);
      } else {
        NotAccepted(ds, low);
      }
    }
  }

  lemma FoundFirst(s: Scanner, ds: seq<Bytes>, configuration: u8)
    requires Reflects(s, ds, configuration)
    ensures s.found == if FirstMatch(ds, |ds|) < |ds| then Some(Selected(configuration, ds, FirstMatch(ds, |ds|))) else None
  {
  }

  lemma NotAccepted(ds: seq<Bytes>, low: bool)
    requires !Promising(ds, low)
    ensures !Accepted(ds, low)
  {
    hide EndpointsOf, FirstMatch;
  }

  // ---- The parser itself ----

  lemma {:induction false} ScanFails(a: seq<Bytes>, b: seq<Bytes>, configuration: u8, low: bool)
    requires Scan(a, configuration, low).None?
    ensures Scan(a + b, configuration, low).None?
    decreases |b|
  {
    if b == [] {
      assert a + b == a;
    } else {
      assert (a + b)[..|a + b| - 1] == a + b[..|b| - 1];
      ScanFails(a, b[..|b| - 1], configuration, low);
    }
  }

  /** How far the loop has come: `ds` are the descriptors before the rest of the stream. */
  ghost predicate Scanned(data: Bytes, low: bool, offset: nat, ds: seq<Bytes>, s: Scanner) {
    HeaderOk(data) && 9 <= offset <= |data| && Scan(ds, data[5], low) == Some(s) &&
    Cut(data[9..]) == match Cut(data[offset..]) case None => None case Some(more) => Some(ds + more)
  }

  lemma NothingScanned(data: Bytes, low: bool)
    requires HeaderOk(data)
    ensures Scanned(data, low, 9, [], START)
  {
    if Cut(data[9..]).Some? { assert [] + Cut(data[9..]).value == Cut(data[9..]).value; }
  }

  lemma BadFrame(data: Bytes, low: bool, offset: nat, ds: seq<Bytes>, s: Scanner)
    requires Scanned(data, low, offset, ds, s) && offset < |data|
    requires |data| - offset < 2 || data[offset] < 2 || data[offset] > |data| - offset
    ensures Parse(data, low) == None
  {
    assert data[offset..][0] == data[offset];
  }

  lemma OneScanned(data: Bytes, low: bool, offset: nat, ds: seq<Bytes>, s: Scanner)
    requires Scanned(data, low, offset, ds, s) && offset < |data|
    requires |data| - offset >= 2 && 2 <= data[offset] <= |data| - offset
    ensures
      var d := data[offset..offset + data[offset]];
      if Advance(s, d, data[5], low).None? then Parse(data, low) == None
      else Scanned(data, low, offset + data[offset], ds + [d], Advance(s, d, data[5], low).value)
  {
    var size, d := data[offset], data[offset..offset + data[offset]];
    var tail := data[offset + size..];
    assert data[offset..][..size] == d && data[offset..][size..] == tail;
    CutOne(data[offset..], tail, size);
    ScanMore(ds, d, data[5], low, s);
    hide Advance, Cut, Scan, HeaderOk;
    if Cut(tail).Some? {
      Regroup(ds, d, Cut(tail).value);
      if Advance(s, d, data[5], low).None? { ScanFails(ds + [d], Cut(tail).value, data[5], low); }
    }
  }

  lemma Regroup(ds: seq<Bytes>, d: Bytes, more: seq<Bytes>)
    ensures ds + ([d] + more) == (ds + [d]) + more
  {
  }

  lemma CutOne(rest: Bytes, tail: Bytes, size: nat)
    requires |rest| >= 2 && 2 <= size == rest[0] <= |rest| && tail == rest[size..]
    ensures Cut(rest) == match Cut(tail) case None => None case Some(more) => Some([rest[..size]] + more)
  {
  }

  lemma ScanMore(ds: seq<Bytes>, d: Bytes, configuration: u8, low: bool, s: Scanner)
    requires Scan(ds, configuration, low) == Some(s)
    ensures Scan(ds + [d], configuration, low) == Advance(s, d, configuration, low)
  {
    assert (ds + [d])[..|ds|] == ds;
  }

  lemma AllScanned(data: Bytes, low: bool, ds: seq<Bytes>, s: Scanner)
    requires Scanned(data, low, |data|, ds, s)
    ensures Parse(data, low) == if Complete(s) then Some(s.found) else None
  {
    assert data[|data|..] == [] && ds + [] == ds;
  }

  /** usb_mouse_find_interface: -1 for a rejected stream, 1 with the mouse, 0 without; `result`
      changes only when a mouse was found. */
  method FindInterface(data: Bytes, low: nat, previous: Mouse) returns (r: int, result: Mouse)
    ensures r == if low > 1 then -1 else match Parse(data, low == 1) case None => -1 case Some(None) => 0 case Some(Some(_)) => 1
    ensures result == if r == 1 then Parse(data, low == 1).value.value else previous
  {
    result := previous;
    if low > 1 || !HeaderOk(data) {
      return -1, result;
    }
    hide Parse, Scanned, Advance, Scan, Cut;
    var s := START;
    var offset := 9;
    ghost var ds: seq<Bytes> := [];
    NothingScanned(data, low == 1);
    while offset < |data|
      invariant 9 <= offset <= |data| && Scanned(data, low == 1, offset, ds, s)
      decreases |data| - offset
    {
      if |data| - offset < 2 || data[offset] < 2 || data[offset] > |data| - offset {
        BadFrame(data, low == 1, offset, ds, s);
        return -1, result;
      }
      var d := data[offset..offset + data[offset]];
      OneScanned(data, low == 1, offset, ds, s);
      var ok, next := Examine(s, d, data[5], low == 1);
      if !ok {
        return -1, result;
      }
      s, ds, offset := next, ds + [d], offset + data[offset];
    }
    AllScanned(data, low == 1, ds, s);
    if s.have && s.endpoints != s.expected {
      return -1, result;
    }
    if s.found.Some? {
      return 1, s.found.value;
    }
    return 0, result;
  }

  /** The loop body's treatment of one descriptor, on the parser's local variables. */
  method Examine(s: Scanner, d: Bytes, configuration: u8, low: bool) returns (ok: bool, next: Scanner)
    requires |d| >= 2
    ensures ok == Advance(s, d, configuration, low).Some?
    ensures ok ==> next == Advance(s, d, configuration, low).value
  {
    var have, endpoints, expected, number, candidate, found := s.have, s.endpoints, s.expected, s.number, s.candidate, s.found;
    if d[1] == 4 {
      if |d| < 9 || (have && endpoints != expected) {
        return false, s;
      }
      have, endpoints, expected, number := true, 0, d[4], d[2];
      candidate := d[3] == 0 && d[5] == 3 && d[6] == 1 && d[7] == 2;
    } else if d[1] == 5 {
      if |d| < 7 || !have {
        return false, s;
      }
      endpoints := endpoints + 1;
      if endpoints > expected {
        return false, s;
      }
      var packet := d[4] as int + 0x100 * (d[5] as int);
      if candidate && found.None? && d[2] >= 0x80 && d[3] % 4 == 3 {
        if d[2] % 16 == 0 || d[2] / 16 % 8 != 0 || packet < 3 || packet > (if low then 8 else 64) || d[6] == 0 || (low && d[6] < 10) {
          return false, s;
        }
        found := Some(Mouse(configuration, number, d[2] % 16, packet, d[6]));
      }
    } else if d[1] == 2 || d[1] == 1 {
      return false, s;
    }
    return true, Scanner(have, endpoints, expected, number, candidate, found);
  }
}
