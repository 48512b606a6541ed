/** One canonical-ABI call on a Wasm instance, as `Instance.call` of
    `python/apple_purchase_receipt_verifier/_host.py` makes it. The guest is
    arbitrary: any pointers, any memory growth, a trap at any point. */
module GuestCall {
  import opened Foundation

  const WORD: nat := 0x1_0000_0000

  /** The guest's exports over its linear memory; `None` is a trap. The integers
      are the raw 32-bit results, before the host masks them. */
  datatype Guest = Guest(
    realloc: (seq<Byte>, nat) -> Option<(seq<Byte>, int)>,
    run: (string, seq<int>, seq<Byte>, nat, nat) -> Option<(seq<Byte>, int)>,
    post: (string, seq<Byte>, nat) -> Option<seq<Byte>>,
    /** The host's strict UTF-8 decoder. */
    decode: seq<Byte> -> Option<string>)

  /** What the host did, in order. `size` is the linear memory's length then. */
  datatype Event =
    | Reallocated(length: nat)
    | Wrote(at: nat, octets: seq<Byte>, size: nat)
    | Invoked(operation: string, pointer: nat, length: nat)
    | Read(at: nat, octets: seq<Byte>, size: nat)
    | Posted(area: nat)

  predicate InsideMemory(e: Event) {
    match e
    case Wrote(at, octets, size) => at + |octets| <= size
    case Read(at, octets, size) => at + |octets| <= size
    case _ => true
  }

  function LittleEndian32(b: seq<Byte>): nat
    requires |b| == 4
  {
    var b0: int, b1: int, b2: int, b3: int := b[0], b[1], b[2], b[3];
    b0 + 0x100 * b1 + 0x1_0000 * b2 + 0x100_0000 * b3
  }

  /** The bytes a call hands over: a verification input is cut to the limit `init` stated. */
  function Sent(operation: string, limit: Option<nat>, data: seq<Byte>): seq<Byte> {
    if operation != "init" && limit.Some? && |data| > limit.value then data[..limit.value] else data
  }

  // ---------------------------------------------------------------------
  // What a call answers, and what it leaves in memory.

  /** The memory with the input in it, and where the guest put it. */
  function Placed(guest: Guest, memory: seq<Byte>, data: seq<Byte>): Option<(seq<Byte>, nat)> {
    match guest.realloc(memory, |data|)
    case None => None
    case Some((grown, raw)) =>
      var p: nat := raw % WORD;
      if data == [] then Some((grown, p))
      else if p + |data| > |grown| then None
      else Some((grown[..p] + data + grown[p + |data|..], p))
  }

  /** The octets a return area names. */
  function Fetched(memory: seq<Byte>, area: nat): Option<seq<Byte>> {
    if area + 8 > |memory| then None
    else
      var address, count := LittleEndian32(memory[area..area + 4]), LittleEndian32(memory[area + 4..area + 8]);
      if address + count > |memory| then None else Some(memory[address..address + count])
  }

  function Outcome(guest: Guest, memory: seq<Byte>, operation: string, scalars: seq<int>, sent: seq<Byte>): Option<string> {
    match Placed(guest, memory, sent)
    case None => None
    case Some((before, pointer)) =>
      match guest.run(operation, scalars, before, pointer, |sent|)
      case None => None
      case Some((after, raw)) =>
        match Fetched(after, raw % WORD)
        case None => None
        case Some(answer) => if guest.post(operation, after, raw % WORD).None? then None else guest.decode(answer)
  }

  /** The memory a call leaves, wherever it stopped; a trap leaves it as it was. */
  function MemoryAfter(guest: Guest, memory: seq<Byte>, operation: string, scalars: seq<int>, sent: seq<Byte>): seq<Byte> {
    match Placed(guest, memory, sent)
    case None => (match guest.realloc(memory, |sent|) case None => memory case Some((grown, _)) => grown)
    case Some((before, pointer)) =>
      match guest.run(operation, scalars, before, pointer, |sent|)
      case None => before
      case Some((after, raw)) =>
        if Fetched(after, raw % WORD).None? then after
        else match guest.post(operation, after, raw % WORD)
        case None => after
        case Some(freed) => freed
  }

  // ---------------------------------------------------------------------
  // What placing and fetching mean.

  /** A 32-bit word in memory, least significant octet first. */
  function WordOctets(n: nat): (b: seq<Byte>)
    requires n < 0x1_0000_0000
    ensures |b| == 4
  {
    [n % 256, n / 256 % 256, n / 65536 % 256, n / 16777216]
  }

  lemma WordReadsBack(n: nat)
    requires n < 0x1_0000_0000
    ensures LittleEndian32(WordOctets(n)) == n
  {
    assert n / 65536 == n / 256 / 256 && n / 16777216 == n / 256 / 256 / 256;
  }

  lemma WordWritesBack(b: seq<Byte>)
    requires |b| == 4
    ensures LittleEndian32(b) < 0x1_0000_0000 && WordOctets(LittleEndian32(b)) == b
  {
    var n := LittleEndian32(b);
    var b0: int, b1: int, b2: int, b3: int := b[0], b[1], b[2], b[3];
    assert n == b0 + 256 * (b1 + 256 * (b2 + 256 * b3));
    assert n / 256 == b1 + 256 * (b2 + 256 * b3);
    assert n / 256 / 256 == b2 + 256 * b3 && n / 256 / 256 / 256 == b3;
    assert n / 65536 == n / 256 / 256 && n / 16777216 == n / 256 / 256 / 256;
    assert b == [b[0], b[1], b[2], b[3]];
  }

  /** The return area names an address and a count, a word each. */
  ghost predicate AreaNames(memory: seq<Byte>, area: nat, address: nat, count: nat) {
    && address < 0x1_0000_0000 && count < 0x1_0000_0000 && area + 8 <= |memory|
    && memory[area..area + 8] == WordOctets(address) + WordOctets(count)
  }

  /** What is fetched is the octets the area names, when they lie inside memory. */
  lemma FetchedIsWhatTheAreaNames(memory: seq<Byte>, area: nat, address: nat, count: nat)
    requires AreaNames(memory, area, address, count)
    ensures Fetched(memory, area) == if address + count <= |memory| then Some(memory[address..address + count]) else None
  {
    hide LittleEndian32, WordOctets;
    var word := memory[area..area + 8];
    assert memory[area..area + 4] == word[..4] == WordOctets(address);
    assert memory[area + 4..area + 8] == word[4..] == WordOctets(count);
    WordReadsBack(address);
    WordReadsBack(count);
  }

  /** An area inside memory names exactly one address and count. */
  lemma AreaAlwaysNames(memory: seq<Byte>, area: nat)
    requires area + 8 <= |memory|
    ensures AreaNames(memory, area, LittleEndian32(memory[area..area + 4]), LittleEndian32(memory[area + 4..area + 8]))
  {
    hide LittleEndian32, WordOctets;
    WordWritesBack(memory[area..area + 4]);
    WordWritesBack(memory[area + 4..area + 8]);
    assert memory[area..area + 8] == memory[area..area + 4] + memory[area + 4..area + 8];
  }

  /** Placing asks the guest for room and takes the low 32 bits of its answer as the
      pointer; the memory then holds the input there, inside it, and nothing else
      changed. It fails exactly when the guest traps or the room is outside memory. */
  lemma PlacedMeans(guest: Guest, memory: seq<Byte>, data: seq<Byte>, grown: seq<Byte>, raw: int, pointer: nat)
    requires guest.realloc(memory, |data|) == Some((grown, raw)) && LowWord(raw, pointer)
    ensures Placed(guest, memory, data).None? <==> data != [] && pointer + |data| > |grown|
    ensures Placed(guest, memory, data).Some? ==>
              && Placed(guest, memory, data).value.1 == pointer
              && HoldsInput(grown, Placed(guest, memory, data).value.0, pointer, data)
  {
    LowWordIs(raw, pointer);
  }

  lemma LowWordIs(raw: int, word: nat)
    requires LowWord(raw, word)
    ensures raw % WORD == word
  {
  }

  lemma TrapPlacesNothing(guest: Guest, memory: seq<Byte>, data: seq<Byte>)
    requires guest.realloc(memory, |data|).None?
    ensures Placed(guest, memory, data).None?
  {
  }

  ghost predicate LowWord(raw: int, word: nat) {
    word < 0x1_0000_0000 && exists high :: raw == high * 0x1_0000_0000 + word
  }

  ghost predicate HoldsInput(grown: seq<Byte>, before: seq<Byte>, pointer: nat, data: seq<Byte>) {
    && |before| == |grown| && (data != [] ==> pointer + |data| <= |before|)
    && (forall i :: 0 <= i < |data| ==> before[pointer + i] == data[i])
    && (forall i :: 0 <= i < |before| && !(pointer <= i < pointer + |data|) ==> before[i] == grown[i])
  }

  /** Only a verification's input is cut, to the limit `init` stated, if it stated one. */
  lemma SentMeans(operation: string, limit: Option<nat>, data: seq<Byte>)
    ensures var sent := Sent(operation, limit, data);
            && sent <= data
            && (operation == "init" || limit == None ==> sent == data)
            && (operation != "init" && limit.Some? ==> |sent| == Min(|data|, limit.value))
  {
  }

  // ---------------------------------------------------------------------
  // What the host does in a call, with the addresses the guest gave and the
  // length the memory had at each point.

  function PlaceEvents(guest: Guest, memory: seq<Byte>, data: seq<Byte>): seq<Event> {
    [Reallocated(|data|)]
    + match guest.realloc(memory, |data|)
      case None => []
      case Some((grown, raw)) =>
        if data != [] && raw % WORD + |data| <= |grown| then [Wrote(raw % WORD, data, |grown|)] else []
  }

  function FetchEvents(memory: seq<Byte>, area: nat): seq<Event> {
    if area + 8 > |memory| then []
    else
      var address, count := LittleEndian32(memory[area..area + 4]), LittleEndian32(memory[area + 4..area + 8]);
      [Read(area, memory[area..area + 8], |memory|)]
      + if address + count > |memory| then [] else [Read(address, memory[address..address + count], |memory|)]
  }

  function RunEvents(guest: Guest, before: seq<Byte>, operation: string, scalars: seq<int>, pointer: nat, length: nat): seq<Event> {
    [Invoked(operation, pointer, length)]
    + match guest.run(operation, scalars, before, pointer, length)
      case None => []
      case Some((after, raw)) =>
        FetchEvents(after, raw % WORD) + if Fetched(after, raw % WORD).Some? then [Posted(raw % WORD)] else []
  }

  /** Everything the host does in one call, however it ends. */
  function CallEvents(guest: Guest, memory: seq<Byte>, operation: string, scalars: seq<int>, sent: seq<Byte>): seq<Event> {
    PlaceEvents(guest, memory, sent)
    + match Placed(guest, memory, sent)
      case None => []
      case Some((before, pointer)) => RunEvents(guest, before, operation, scalars, pointer, |sent|)
  }

  // ---------------------------------------------------------------------
  // The discipline, for every guest.

  /** Every read and write lies inside memory, and a post-return, if any, is the
      last thing done: there is at most one, and nothing is read after it. */
  ghost predicate Disciplined(events: seq<Event>) {
    && (forall k :: 0 <= k < |events| ==> InsideMemory(events[k]))
    && (forall k :: 0 <= k < |events| - 1 ==> !events[k].Posted?)
  }

  /** Nothing is handed back yet. */
  ghost predicate Open(events: seq<Event>) {
    forall k :: 0 <= k < |events| ==> InsideMemory(events[k]) && !events[k].Posted?
  }

  lemma PlaceIsOpen(guest: Guest, memory: seq<Byte>, data: seq<Byte>)
    ensures Open(PlaceEvents(guest, memory, data))
  {
  }

  lemma RunIsDisciplined(guest: Guest, before: seq<Byte>, operation: string, scalars: seq<int>, pointer: nat, length: nat)
    ensures Disciplined(RunEvents(guest, before, operation, scalars, pointer, length))
  {
  }

  lemma OpenThenDisciplined(a: seq<Event>, b: seq<Event>)
    requires Open(a) && Disciplined(b)
    ensures Disciplined(a + b)
  {
  }

  /** Whatever the guest answers, and wherever the call stops, it stayed inside the
      memory as it was then and handed back at most once, last. */
  lemma EveryCallIsDisciplined(guest: Guest, memory: seq<Byte>, operation: string, scalars: seq<int>, sent: seq<Byte>)
    ensures Disciplined(CallEvents(guest, memory, operation, scalars, sent))
  {
    hide Disciplined, Open, PlaceEvents, RunEvents, Placed;
    PlaceIsOpen(guest, memory, sent);
    match Placed(guest, memory, sent)
    case None =>
      NothingIsDisciplined();
      OpenThenDisciplined(PlaceEvents(guest, memory, sent), []);
    case Some((before, pointer)) =>
      RunIsDisciplined(guest, before, operation, scalars, pointer, |sent|);
      OpenThenDisciplined(PlaceEvents(guest, memory, sent), RunEvents(guest, before, operation, scalars, pointer, |sent|));
  }

  lemma NothingIsDisciplined()
    ensures Disciplined([])
  {
  }

  /** A call that answers ran the guest on its input, read the return area the guest
      named and then the answer that area names, both from the memory the guest
      left, and handed back that area: exactly once, after the answer was copied. */
  lemma AnsweredCall(guest: Guest, memory: seq<Byte>, operation: string, scalars: seq<int>, sent: seq<Byte>)
    requires Outcome(guest, memory, operation, scalars, sent).Some?
    ensures var (before, pointer) := Placed(guest, memory, sent).value;
            var (after, raw) := guest.run(operation, scalars, before, pointer, |sent|).value;
            var area := raw % WORD;
            area + 8 <= |after|
            && var address, count := LittleEndian32(after[area..area + 4]), LittleEndian32(after[area + 4..area + 8]);
               && AreaNames(after, area, address, count)
               && address + count <= |after|
               && guest.decode(after[address..address + count]) == Outcome(guest, memory, operation, scalars, sent)
               && var events := CallEvents(guest, memory, operation, scalars, sent);
                  && events == PlaceEvents(guest, memory, sent)
                               + [Invoked(operation, pointer, |sent|), Read(area, after[area..area + 8], |after|),
                                  Read(address, after[address..address + count], |after|), Posted(area)]
                  && (forall k :: 0 <= k < |events| && events[k].Posted? ==> k == |events| - 1)
  {
    EveryCallIsDisciplined(guest, memory, operation, scalars, sent);
    var (before, pointer) := Placed(guest, memory, sent).value;
    var (after, raw) := guest.run(operation, scalars, before, pointer, |sent|).value;
    AreaAlwaysNames(after, raw % WORD);
    hide LittleEndian32, WordOctets, AreaNames;
  }

  class Instance {
    const guest: Guest
    var memory: seq<Byte>
    var maxInput: Option<nat>
    ghost var events: seq<Event>

    constructor (guest: Guest, memory: seq<Byte>)
      ensures this.guest == guest && this.memory == memory && maxInput == None && events == []
    {
      this.guest := guest;
      this.memory := memory;
      maxInput := None;
      events := [];
    }

    /** Places the input in the guest's memory; `None` when the guest traps or
        names a buffer outside its memory. */
    method Place(data: seq<Byte>) returns (pointer: Option<nat>)
      modifies this`memory, this`events
      ensures events == PlaceEvents(guest, old(memory), data)
      ensures match Placed(guest, old(memory), data)
              case Some((before, p)) => pointer == Some(p) && memory == before
              case None =>
                && pointer == None
                && memory == match guest.realloc(old(memory), |data|) case None => old(memory) case Some((grown, _)) => grown
    {
      events := [Reallocated(|data|)];
      var granted := guest.realloc(memory, |data|);
      if granted.None? {
        return None;
      }
      memory := granted.value.0;
      var p := granted.value.1 % WORD;
      if data != [] {
        if p + |data| > |memory| {
          return None;
        }
        events := events + [Wrote(p, data, |memory|)];
        memory := memory[..p] + data + memory[p + |data|..];
      }
      return Some(p);
    }

    /** Reads the answer the return area names; `None` when either lies outside memory. */
    method Fetch(area: nat) returns (answer: Option<seq<Byte>>)
      modifies this`events
      ensures answer == Fetched(memory, area)
      ensures events == old(events) + FetchEvents(memory, area)
    {
      var size := |memory|;
      if area + 8 > size {
        return None;
      }
      var word := memory[area..area + 8];
      assert word[..4] == memory[area..area + 4] && word[4..] == memory[area + 4..area + 8];
      events := events + [Read(area, word, size)];
      var address, count := LittleEndian32(word[..4]), LittleEndian32(word[4..]);
      if address + count > size {
        return None;
      }
      events := events + [Read(address, memory[address..address + count], size)];
      return Some(memory[address..address + count]);
    }

    /** One call: its answer, everything it did and the memory it leaves. */
    method Call(operation: string, scalars: seq<int>, data: seq<Byte>) returns (r: Option<string>)
      modifies this`memory, this`events
      ensures r == Outcome(guest, old(memory), operation, scalars, Sent(operation, maxInput, data))
      ensures events == CallEvents(guest, old(memory), operation, scalars, Sent(operation, maxInput, data))
      ensures memory == MemoryAfter(guest, old(memory), operation, scalars, Sent(operation, maxInput, data))
      ensures Disciplined(events)
    {
      hide Disciplined, PlaceEvents, FetchEvents, Fetched, Placed;
      var sent := Sent(operation, maxInput, data);
      EveryCallIsDisciplined(guest, memory, operation, scalars, sent);
      var pointer := Place(sent);
      if pointer.None? {
        return None;
      }
      events := events + [Invoked(operation, pointer.value, |sent|)];
      var ran := guest.run(operation, scalars, memory, pointer.value, |sent|);
      if ran.None? {
        return None;
      }
      memory := ran.value.0;
      var area := ran.value.1 % WORD;
      var answer := Fetch(area);
      if answer.None? {
        return None;
      }
      events := events + [Posted(area)];
      var freed := guest.post(operation, memory, area);
      if freed.None? {
        return None;
      }
      memory := freed.value;
      r := guest.decode(answer.value);
    }
  }
}
