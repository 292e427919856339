/** The Set-1 scan code decoder and the queue between interrupt handler and keyboard service. */
module Keyboard {
  import opened MachineWords
  import opened Rings

  const QUEUE_SIZE := 256
  const KEYS := 256

  type KeySet = s: seq<bool> | |s| == KEYS witness seq(KEYS, _ => false)

  /** down[], down_count, extended, pause_remaining. */
  datatype Decoder = Decoder(down: KeySet, count: nat, extended: bool, pause: nat)

  function NoKeys(): KeySet {
    seq(KEYS, i requires 0 <= i < KEYS => false)
  }

  /** The decoder after a reset: no key down, no prefix pending. */
  function Fresh(): Decoder {
    Decoder(NoKeys(), 0, false, 0)
  }

  function CountDown(s: KeySet, n: nat): (k: nat)
    requires n <= KEYS
    ensures k <= n
  {
    if n == 0 then 0 else CountDown(s, n - 1) + if s[n - 1] then 1 else 0
  }

  /** The count is the number of keys that are down. */
  ghost predicate Sound(d: Decoder) {
    d.count == CountDown(d.down, KEYS)
  }

  function SetKey(d: Decoder, key: nat, pressed: bool): Decoder
    requires key < KEYS
  {
    if pressed && !d.down[key] then Decoder(d.down[key := true], d.count + 1, d.extended, d.pause)
    else if !pressed && d.down[key] then Decoder(d.down[key := false], if d.count == 0 then 0 else d.count - 1, d.extended, d.pause)
    else d
  }

  /** The part of keyboard_decode_byte after the prefixes. */
  function DecodeKey(d: Decoder, base: nat, extended: bool, pressed: bool): Decoder
    requires base < 0x80
  {
    if extended && (base == 0x2A || base == 0x36) then d
    else if extended then SetKey(d, base + 128, pressed)
    else if base == 0 || base == 0x7F then d
    else SetKey(d, base, pressed)
  }

  /** keyboard_decode_byte. */
  function Decode(d: Decoder, byte: u8): Decoder {
    if d.pause != 0 then Decoder(d.down, d.count, d.extended, d.pause - 1)
    else if byte == 0xE1 then Decoder(d.down, d.count, false, 5)
    else if byte == 0xE0 then Decoder(d.down, d.count, true, 0)
    else DecodeKey(Decoder(d.down, d.count, false, 0), byte % 0x80, d.extended, byte < 0x80)
  }

  function DecodeAll(d: Decoder, bytes: seq<u8>): Decoder
    decreases |bytes|
  {
    if bytes == [] then d else Decode(DecodeAll(d, bytes[..|bytes| - 1]), bytes[|bytes| - 1])
  }

  // ---- The count ----

  lemma {:induction false} CountUpdate(s: KeySet, key: nat, value: bool, n: nat)
    requires key < KEYS && n <= KEYS
    ensures CountDown(s[key := value], n) == CountDown(s, n) + if key >= n then 0 else (if value then 1 else 0) - (if s[key] then 1 else 0)
  {
    if n > 0 { CountUpdate(s, key, value, n - 1); }
  }

  lemma {:induction false} CountZero(s: KeySet, n: nat)
    requires n <= KEYS
    ensures CountDown(s, n) == 0 <==> forall k | 0 <= k < n :: !s[k]
  {
    if n > 0 { CountZero(s, n - 1); }
  }

  /** For arbitrary bytes the count stays the number of keys down, so it never underflows. */
  lemma DecodeSound(d: Decoder, byte: u8)
    requires Sound(d)
    ensures Sound(Decode(d, byte))
  {
    var base := byte % 0x80;
    var key := if d.extended then base + 128 else base;
    CountUpdate(d.down, key, true, KEYS);
    CountUpdate(d.down, key, false, KEYS);
  }

  lemma {:induction false} DecodeAllSound(d: Decoder, bytes: seq<u8>)
    requires Sound(d)
    ensures Sound(DecodeAll(d, bytes))
    ensures DecodeAll(d, bytes).count == 0 <==> DecodeAll(d, bytes).down == NoKeys()
    decreases |bytes|
  {
    if bytes != [] {
      DecodeAllSound(d, bytes[..|bytes| - 1]);
      DecodeSound(DecodeAll(d, bytes[..|bytes| - 1]), bytes[|bytes| - 1]);
    }
    CountZero(DecodeAll(d, bytes).down, KEYS);
  }

  // ---- Encoding ----

  /** What a Set-1 keyboard sends: a key going down or up (128 and above: the extended keys), a
      whole Pause sequence, or one of Print Screen's fake extended Shift bytes. */
  datatype Token = Key(key: nat, pressed: bool) | Pause(rest: seq<u8>) | FakeShift(code: u8)

  /** Codes 0 and 7F are ignored; the breaks of 60 and 61 are the two prefixes. */
  predicate Sendable(t: Token) {
    match t
    case Key(key, pressed) =>
      key < KEYS && key != 0 && key != 0x7F && !(key >= 128 && (key - 128 == 0x2A || key - 128 == 0x36)) &&
      (pressed || (key % 128 != 0x60 && key % 128 != 0x61))
    case Pause(rest) => |rest| == 5
    case FakeShift(code) => code == 0x2A || code == 0x36 || code == 0xAA || code == 0xB6
  }

  /** The bytes of a key going down or up, whatever the key. */
  function RawKey(key: nat, pressed: bool): seq<u8>
    requires key < KEYS
  {
    (if key >= 128 then [0xE0] else []) + [key % 128 + if pressed then 0 else 0x80]
  }

  function Encode(t: Token): seq<u8>
    requires Sendable(t)
  {
    match t
    case Key(key, pressed) => RawKey(key, pressed)
    case Pause(rest) => [0xE1] + rest
    case FakeShift(code) => [0xE0, code]
  }

  ghost predicate AllSendable(ts: seq<Token>) {
    forall t | t in ts :: Sendable(t)
  }

  ghost function EncodeAll(ts: seq<Token>): seq<u8>
    requires AllSendable(ts)
  {
    if ts == [] then [] else EncodeAll(ts[..|ts| - 1]) + Encode(ts[|ts| - 1])
  }

  function Apply(s: KeySet, t: Token): KeySet
    requires Sendable(t)
  {
    if t.Key? then s[t.key := t.pressed] else s
  }

  /** The keys held down after the tokens, starting from `s`. */
  ghost function Held(s: KeySet, ts: seq<Token>): KeySet
    requires AllSendable(ts)
  {
    if ts == [] then s else Apply(Held(s, ts[..|ts| - 1]), ts[|ts| - 1])
  }

  lemma {:induction false} DecodeConcat(d: Decoder, a: seq<u8>, b: seq<u8>)
    ensures DecodeAll(d, a + b) == DecodeAll(DecodeAll(d, a), b)
    decreases |b|
  {
    hide Decode;
    if b == [] {
      assert a + b == a;
    } else {
      assert (a + b)[..|a + b| - 1] == a + b[..|b| - 1];
      DecodeConcat(d, a, b[..|b| - 1]);
    }
  }

  lemma DecodeOne(d: Decoder, b: u8)
    ensures DecodeAll(d, [b]) == Decode(d, b)
  {
    assert [b][..0] == [];
  }

  lemma DecodeTwo(d: Decoder, a: u8, b: u8)
    ensures DecodeAll(d, [a, b]) == Decode(Decode(d, a), b)
  {
    assert [a, b] == [a] + [b];
    DecodeConcat(d, [a], [b]);
    DecodeOne(d, a);
    DecodeOne(Decode(d, a), b);
  }

  /** A pause swallows the next `pause` bytes whatever they are. */
  lemma {:induction false} Swallows(d: Decoder, rest: seq<u8>)
    requires d.pause >= |rest|
    ensures DecodeAll(d, rest) == d.(pause := d.pause - |rest|)
    decreases |rest|
  {
    if rest != [] { Swallows(d, rest[..|rest| - 1]); }
  }

  lemma DecodeKeyToken(d: Decoder, key: nat, pressed: bool)
    requires Sendable(Key(key, pressed)) && !d.extended && d.pause == 0
    ensures DecodeAll(d, Encode(Key(key, pressed))) == SetKey(d, key, pressed)
  {
    var last: u8 := key % 128 + if pressed then 0 else 0x80;
    assert last % 0x80 == key % 128 && (last < 0x80 <==> pressed) && last != 0xE0 && last != 0xE1;
    hide DecodeAll, SetKey;
    if key >= 128 {
      assert Encode(Key(key, pressed)) == [0xE0, last];
      DecodeTwo(d, 0xE0, last);
    } else {
      assert Encode(Key(key, pressed)) == [last];
      DecodeOne(d, last);
    }
  }

  lemma DecodePause(d: Decoder, rest: seq<u8>)
    requires |rest| == 5 && !d.extended && d.pause == 0
    ensures DecodeAll(d, [0xE1] + rest) == d
  {
    DecodeConcat(d, [0xE1], rest);
    DecodeOne(d, 0xE1);
    Swallows(Decode(d, 0xE1), rest);
  }

  /** One token at a rest point sets exactly its key and returns to a rest point. */
  lemma DecodeToken(d: Decoder, t: Token)
    requires Sendable(t) && !d.extended && d.pause == 0
    ensures DecodeAll(d, Encode(t)) == if t.Key? then SetKey(d, t.key, t.pressed) else d
  {
    match t {
      case Key(key, pressed) => DecodeKeyToken(d, key, pressed);
      case Pause(rest) => DecodePause(d, rest);
      case FakeShift(code) => DecodeTwo(d, 0xE0, code);
    }
  }

  /** Round trip: any finite list of presses and releases, with Pause and Print Screen bytes
      interspersed whole, decodes to exactly the keys held, counted. */
  lemma {:induction false} DecodeEncodeAll(d: Decoder, ts: seq<Token>)
    requires Sound(d) && !d.extended && d.pause == 0 && AllSendable(ts)
    ensures DecodeAll(d, EncodeAll(ts)) == Decoder(Held(d.down, ts), CountDown(Held(d.down, ts), KEYS), false, 0)
    decreases |ts|
  {
    if ts != [] {
      var before, t := ts[..|ts| - 1], ts[|ts| - 1];
      DecodeEncodeAll(d, before);
      var mid := DecodeAll(d, EncodeAll(before));
      DecodeConcat(d, EncodeAll(before), Encode(t));
      DecodeToken(mid, t);
      if t.Key? {
        CountUpdate(mid.down, t.key, t.pressed, KEYS);
        assert mid.down[t.key] == t.pressed ==> mid.down[t.key := t.pressed] == mid.down;
      }
    }
  }

  /** Exactly which key events are understood: for every key and direction, the bytes of an event that
      changes something have exactly that effect if and only if the event is a sendable one. */
  lemma KeyIsUnderstoodIff(d: Decoder, key: nat, pressed: bool)
    requires key < KEYS && !d.extended && d.pause == 0 && d.down[key] != pressed
    ensures DecodeAll(d, RawKey(key, pressed)) == SetKey(d, key, pressed) <==> Sendable(Key(key, pressed))
  {
    if Sendable(Key(key, pressed)) {
      DecodeKeyToken(d, key, pressed);
    } else {
      NotUnderstood(d, key, pressed);
    }
  }

  /** Any other event leaves every key as it was. */
  lemma NotUnderstood(d: Decoder, key: nat, pressed: bool)
    requires key < KEYS && !d.extended && d.pause == 0 && !Sendable(Key(key, pressed))
    ensures DecodeAll(d, RawKey(key, pressed)).down == d.down
  {
    var last: u8 := key % 128 + if pressed then 0 else 0x80;
    RawBytes(key, pressed, last);
    hide *;
    if key >= 128 {
      DecodeTwo(d, 0xE0, last);
      PrefixByte(d);
      Ignored(Decode(d, 0xE0), last);
    } else {
      DecodeOne(d, last);
      Ignored(d, last);
    }
  }

  lemma RawBytes(key: nat, pressed: bool, last: u8)
    requires key < KEYS && last == key % 128 + (if pressed then 0 else 0x80)
    ensures RawKey(key, pressed) == (if key >= 128 then [0xE0, last] else [last])
    ensures !Sendable(Key(key, pressed)) ==> last in {0xE0, 0xE1} || Dropped(last, key >= 128)
  {
  }

  /** A byte that ends no key's code. */
  predicate Dropped(last: u8, extended: bool) {
    if extended then last % 0x80 == 0x2A || last % 0x80 == 0x36 else last % 0x80 == 0 || last % 0x80 == 0x7F
  }

  lemma PrefixByte(d: Decoder)
    requires d.pause == 0
    ensures Decode(d, 0xE0) == Decoder(d.down, d.count, true, 0)
  {
  }

  lemma Ignored(d: Decoder, last: u8)
    requires d.pause == 0 && (last in {0xE0, 0xE1} || Dropped(last, d.extended))
    ensures Decode(d, last).down == d.down
  {
    hide SetKey;
  }

  /** An input that fails: the break byte of key 60 is taken for a prefix and the key stays down. */
  lemma PrefixBreakIsLost(d: Decoder)
    requires !d.extended && d.pause == 0 && d.down[0x60]
    ensures DecodeAll(d, RawKey(0x60, false)).down[0x60] && DecodeAll(d, RawKey(0x60, false)).extended
  {
    assert RawKey(0x60, false) == [0xE0];
    DecodeOne(d, 0xE0);
  }

  // ---- The shared state, operated by one party at a time ----

  datatype Queue = Queue(bytes: seq<u8>, head: nat, tail: nat, dropped: u32, observed: u32, keys: Decoder)

  predicate QueueShape(q: Queue) {
    |q.bytes| == QUEUE_SIZE && q.head < QUEUE_SIZE && q.tail < QUEUE_SIZE
  }

  ghost predicate QueueValid(q: Queue) {
    QueueShape(q) && Sound(q.keys)
  }

  /** The bytes waiting to be decoded. */
  function Waiting(q: Queue): seq<u8>
    requires QueueShape(q)
  {
    Segment(q.bytes, q.tail, q.head)
  }

  /** ps2_keyboard_interrupt once a byte was read; `error` is parity or timeout. */
  function Receive(q: Queue, byte: u8, error: bool): Queue
    requires QueueShape(q)
  {
    if error || (q.head + 1) % QUEUE_SIZE == q.tail
    then Queue(q.bytes, q.head, q.tail, (q.dropped + 1) % WORD, q.observed, q.keys)
    else Queue(q.bytes[q.head := byte], (q.head + 1) % QUEUE_SIZE, q.tail, q.dropped, q.observed, q.keys)
  }

  lemma NextIndex(i: nat)
    requires i < QUEUE_SIZE
    ensures (i + 1) % QUEUE_SIZE == Next(i, QUEUE_SIZE)
  {
  }

  /** A sound byte joins the end of the queue; a damaged one, or one for which 255 are waiting, is
      counted as dropped and nothing else changes. */
  lemma ReceiveAppends(q: Queue, byte: u8, error: bool)
    requires QueueValid(q)
    ensures
      var r := Receive(q, byte, error);
      QueueValid(r) && r.keys == q.keys && r.observed == q.observed &&
      if !error && |Waiting(q)| < 255 then Waiting(r) == Waiting(q) + [byte] && r.dropped == q.dropped
      else Waiting(r) == Waiting(q) && r.dropped == (q.dropped + 1) % WORD
  {
    NextIndex(q.head);
    if (q.head + 1) % QUEUE_SIZE != q.tail { SegmentExtended(q.bytes, q.tail, q.head, byte); }
  }

  /** keyboard_process_queue: after a loss everything pending and pressed is forgotten, otherwise
      every waiting byte is decoded in order. */
  function Processed(q: Queue): Queue
    requires QueueShape(q)
  {
    if q.observed != q.dropped then Queue(q.bytes, q.head, q.head, q.dropped, q.dropped, Fresh())
    else Queue(q.bytes, q.head, q.head, q.dropped, q.observed, DecodeAll(q.keys, Waiting(q)))
  }

  class KeyboardShared {
    const bytes: array<u8>
    const down: array<bool>
    var head: nat
    var tail: nat
    var dropped: u32
    var observed: u32
    var downCount: nat
    var extended: bool
    var pauseRemaining: nat

    ghost predicate Shaped() {
      bytes.Length == QUEUE_SIZE && down.Length == KEYS
    }

    ghost function Keys(): Decoder
      reads this, down
      requires Shaped()
    {
      Decoder(down[..], downCount, extended, pauseRemaining)
    }

    ghost function State(): Queue
      reads this, bytes, down
      requires Shaped()
    {
      Queue(bytes[..], head, tail, dropped, observed, Keys())
    }

    constructor ()
      ensures Shaped() && fresh(bytes) && fresh(down) && QueueValid(State()) && Keys() == Fresh() && head == tail && dropped == observed
    {
      bytes := new u8[QUEUE_SIZE](_ => 0);
      down := new bool[KEYS](_ => false);
      head, tail, dropped, observed, downCount, extended, pauseRemaining := 0, 0, 0, 0, 0, false, 0;
      new;
      assert down[..] == NoKeys();
      CountZero(NoKeys(), KEYS);
    }

    /** keyboard_decode_byte. */
    method DecodeByte(byte: u8)
      requires Shaped() && Sound(Keys())
      modifies this`downCount, this`extended, this`pauseRemaining, down
      ensures Keys() == Decode(old(Keys()), byte) && Sound(Keys())
    {
      DecodeSound(Keys(), byte);
      ghost var d := Keys();
      if pauseRemaining != 0 {
        pauseRemaining := pauseRemaining - 1;
        return;
      }
      if byte == 0xE1 {
        pauseRemaining, extended := 5, false;
        return;
      }
      if byte == 0xE0 {
        extended := true;
        return;
      }
      var key := byte % 0x80;
      var pressed := byte < 0x80;
      if extended {
        extended := false;
        if key == 0x2A || key == 0x36 {
          return;
        }
        key := key + 128;
      }
      if key == 0 || key == 0x7F {
        return;
      }
      SomeKeyCounts(d, key);
      if pressed && !down[key] {
        down[key] := true;
        assert down[..] == d.down[key := true];
        downCount := downCount + 1;
      } else if !pressed && down[key] {
        down[key] := false;
        assert down[..] == d.down[key := false];
        downCount := downCount - 1;
      }
    }

    /** ps2_keyboard_interrupt after the status checks. */
    method Interrupt(scancode: u8, error: bool)
      requires Shaped() && QueueValid(State())
      modifies this`head, this`dropped, bytes
      ensures State() == Receive(old(State()), scancode, error) && QueueValid(State())
    {
      if error {
        dropped := (dropped + 1) % WORD;
        return;
      }
      var next := (head + 1) % QUEUE_SIZE;
      if next == tail {
        dropped := (dropped + 1) % WORD;
        return;
      }
      ghost var was := bytes[..];
      bytes[head] := scancode;
      assert bytes[..] == was[head := scancode];
      head := next;
    }

    /** The reset of keyboard_process_queue. */
    method Forget()
      requires Shaped() && QueueValid(State())
      modifies this, down
      ensures State() == Queue(old(bytes[..]), old(head), old(head), old(dropped), old(dropped), Fresh()) && QueueValid(State())
    {
      observed := dropped;
      var index := 0;
      while index < KEYS
        invariant 0 <= index <= KEYS
        invariant forall k | 0 <= k < index :: !down[k]
        invariant head == old(head) && tail == old(tail) && dropped == old(dropped) && observed == old(dropped)
      {
        down[index] := false;
        index := index + 1;
      }
      downCount, extended, pauseRemaining := 0, false, 0;
      tail := head;
      assert down[..] == NoKeys();
      CountZero(NoKeys(), KEYS);
    }

    /** keyboard_process_queue. */
    method ProcessQueue()
      requires Shaped() && QueueValid(State())
      modifies this, down
      ensures State() == Processed(old(State())) && QueueValid(State())
      ensures tail == head && observed == dropped
      ensures Keys() == if old(observed) != old(dropped) then Fresh() else DecodeAll(old(Keys()), Waiting(old(State())))
    {
      hide *;
      StateIs();
      ProcessedIs(State());
      ghost var goal := Processed(State());
      if observed != dropped {
        ForgottenIsProcessed(State());
        Forget();
        StateIs();
      }
      WaitingFits(State());
      var remaining := QUEUE_SIZE;
      while remaining != 0 && tail != head
        invariant 0 <= remaining && QueueShape(State()) && QueueValid(State()) && observed == dropped
        invariant Processed(State()) == goal && |Waiting(State())| <= remaining
        decreases remaining
      {
        ghost var q := State();
        StateIs();
        OneProcessed(q);
        var byte := bytes[tail];
        tail := (tail + 1) % QUEUE_SIZE;
        StateIs();
        DecodeByte(byte);
        remaining := remaining - 1;
        StateIs();
      }
      StateIs();
      NothingWaits(State());
    }

    /** keyboard_driver_service between taking and releasing the lock: the waiting input is decoded
        first, then a query sees the keys that are down after it. */
    method Service(operation: u32, key: u32) returns (result: u32)
      requires Shaped() && QueueValid(State())
      modifies this, down
      ensures State() == Processed(old(State())) && QueueValid(State())
      ensures |Keys().down| == KEYS
      ensures operation == 0 && key < 256 ==> result == if Keys().down[key] then 1 else 0
      ensures operation == 1 ==> result == if exists k :: 0 <= k < KEYS && Keys().down[k] then 1 else 0
      ensures operation == 2 ==> result == 0
      ensures operation > 2 || (operation == 0 && key >= 256) ==> result == 0xFFFF_FFFF
    {
      ProcessQueue();
      result := 0xFFFF_FFFF;
      CountZero(Keys().down, KEYS);
      hide Processed, Segment;
      if operation == 0 && key < 256 {
        result := if down[key] then 1 else 0;
      } else if operation == 1 {
        result := if downCount != 0 then 1 else 0;
      } else if operation == 2 {
        result := 0;
      }
    }

    lemma StateIs()
      requires Shaped()
      ensures State() == Queue(bytes[..], head, tail, dropped, observed, Keys()) && bytes.Length == QUEUE_SIZE && |bytes[..]| == QUEUE_SIZE
      ensures Keys() == Decoder(down[..], downCount, extended, pauseRemaining)
      ensures QueueValid(State()) <==> QueueShape(State()) && Sound(Keys())
      ensures QueueShape(State()) <==> head < QUEUE_SIZE && tail < QUEUE_SIZE
    {
    }
  }

  lemma ProcessedIs(q: Queue)
    requires QueueShape(q)
    ensures
      var p := Processed(q);
      QueueShape(p) && p.tail == p.head && p.observed == p.dropped &&
      p.keys == if q.observed != q.dropped then Fresh() else DecodeAll(q.keys, Waiting(q))
  {
    hide DecodeAll, Waiting, Fresh;
  }

  lemma ForgottenIsProcessed(q: Queue)
    requires QueueShape(q) && q.observed != q.dropped
    ensures
      var f := Queue(q.bytes, q.head, q.head, q.dropped, q.dropped, Fresh());
      QueueShape(f) && Processed(q) == Processed(f)
  {
  }

  lemma WaitingFits(q: Queue)
    requires QueueShape(q)
    ensures |Waiting(q)| <= QUEUE_SIZE
  {
  }

  /** Taking one byte off the queue and decoding it leaves the rest of the work the same. */
  lemma OneProcessed(q: Queue)
    requires QueueShape(q) && q.observed == q.dropped && q.tail != q.head
    ensures q.tail < |q.bytes| && (q.tail + 1) % QUEUE_SIZE < QUEUE_SIZE
    ensures
      var r := q.(tail := (q.tail + 1) % QUEUE_SIZE, keys := Decode(q.keys, q.bytes[q.tail]));
      QueueShape(r) && Processed(r) == Processed(q) && |Waiting(r)| == |Waiting(q)| - 1
  {
    var r := q.(tail := (q.tail + 1) % QUEUE_SIZE, keys := Decode(q.keys, q.bytes[q.tail]));
    NextIndex(q.tail);
    assert Waiting(q) == [q.bytes[q.tail]] + Waiting(r);
    hide Decode, Segment;
    DecodeConcat(q.keys, [q.bytes[q.tail]], Waiting(r));
    DecodeOne(q.keys, q.bytes[q.tail]);
  }

  lemma NothingWaits(q: Queue)
    requires QueueShape(q) && (q.tail == q.head || Waiting(q) == []) && q.observed == q.dropped
    ensures Processed(q) == q
  {
  }

  lemma SomeKeyCounts(d: Decoder, key: nat)
    requires Sound(d) && key < KEYS
    ensures d.down[key] ==> d.count > 0
  {
    CountZero(d.down, KEYS);
  }
}
