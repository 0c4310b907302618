// Fan-out of one event to the subscribed Consumers (runtime/runtime.go,
// offerConsumers and projectEvent): the form that projects once per mode and
// copies, against offering to each Consumer in turn. Content and its Full bytes
// are heap objects here, so that sharing is visible.
module FanOut {
  import opened Envelopes

  const CONTENT_FULL := "full"
  const CONTENT_SHA256 := "sha256"
  const CONTENT_OMIT := "omit"
  const QUEUE_SIZE: nat := 128

  datatype Fault = InvalidProjection | InvalidContent | CannotWiden | Unavailable | QueueFull

  // JSON string decoding and encoding, the hex digest of raw content, and the
  // test for hexadecimal text.
  datatype Codec = Codec(
    decode: seq<byte> -> Option<seq<byte>>,
    encode: seq<byte> -> seq<byte>,
    digest: seq<byte> -> string,
    isHex: string -> bool)

  // ----- Events as values, and offering to each Consumer in turn -----

  datatype ContentValue = ContentValue(mode: string, sha256: string, full: seq<byte>)
  datatype EventValue = EventValue(typ: string, metadata: string, content: Option<ContentValue>)
  datatype Projection = Projected(event: EventValue) | Refused(fault: Fault)

  predicate ValidMode(mode: string) {
    mode == CONTENT_FULL || mode == CONTENT_SHA256 || mode == CONTENT_OMIT
  }

  predicate ValidContent(codec: Codec, c: ContentValue) {
    if c.mode == CONTENT_FULL then c.sha256 == "" && codec.decode(c.full).Some?
    else if c.mode == CONTENT_SHA256 then |c.full| == 0 && |c.sha256| == 64 && codec.isHex(c.sha256)
    else if c.mode == CONTENT_OMIT then |c.full| == 0 && c.sha256 == ""
    else false
  }

  function ApplyMode(codec: Codec, mode: string, raw: seq<byte>): ContentValue {
    if mode == CONTENT_FULL then ContentValue(CONTENT_FULL, "", codec.encode(raw))
    else if mode == CONTENT_SHA256 then ContentValue(CONTENT_SHA256, codec.digest(raw), [])
    else ContentValue(CONTENT_OMIT, "", [])
  }

  function Project(codec: Codec, e: EventValue, mode: string): Projection {
    if !ValidMode(mode) then Refused(InvalidProjection)
    else
      match e.content
      case None => Projected(e)
      case Some(c) =>
        if !ValidContent(codec, c) then Refused(InvalidContent)
        else if c.mode != CONTENT_FULL || |c.full| == 0 then
          if mode == CONTENT_OMIT then Projected(e.(content := Some(ContentValue(CONTENT_OMIT, "", []))))
          else if mode == c.mode then Projected(e)
          else Refused(CannotWiden)
        else
          Projected(e.(content := Some(ApplyMode(codec, mode, codec.decode(c.full).value))))
  }

  datatype View = View(events: set<string>, projection: string, dead: bool, queue: seq<EventValue>)
  datatype Offered = Offered(queue: seq<EventValue>, fault: Option<Fault>)

  function Admit(v: View, e: EventValue): Offered {
    if v.dead then Offered(v.queue, Some(Unavailable))
    else if |v.queue| >= QUEUE_SIZE then Offered(v.queue, Some(QueueFull))
    else Offered(v.queue + [e], None)
  }

  function Offer(codec: Codec, v: View, e: EventValue): Offered {
    if e.typ !in v.events then Offered(v.queue, None)
    else
      match Project(codec, e, v.projection)
      case Refused(fault) => Offered(v.queue, Some(fault))
      case Projected(p) => Admit(v, p)
  }

  // An event is offered to those that subscribe to its type, as projected for them. One that
  // cannot be projected is a fault, and so is one that finds the worker dead or its 128
  // places taken; otherwise it joins the end of the queue.
  lemma OfferedExactly(codec: Codec, v: View, e: EventValue)
    ensures var offered, p := Offer(codec, v, e), Project(codec, e, v.projection);
            && (offered.queue == v.queue || offered.queue == v.queue + [p.event])
            && (offered.queue != v.queue <==> e.typ in v.events && p.Projected? && !v.dead && |v.queue| < 128)
            && (offered.fault == None <==> e.typ !in v.events || offered.queue != v.queue)
            && (e.typ in v.events && p.Refused? ==> offered.fault == Some(p.fault))
            && (e.typ in v.events && p.Projected? && v.dead ==> offered.fault == Some(Unavailable))
            && (e.typ in v.events && p.Projected? && !v.dead && |v.queue| >= 128 ==> offered.fault == Some(QueueFull))
  {
    hide Project;
  }

  // Projection never carries raw content to a Consumer that did not ask for it,
  // and changes nothing else.
  lemma ProjectionWithholds(codec: Codec, e: EventValue, mode: string)
    ensures match Project(codec, e, mode)
            case Refused(_) => true
            case Projected(p) =>
              && p.typ == e.typ && p.metadata == e.metadata
              && (p.content.Some? <==> e.content.Some?)
              && (p.content.Some? ==>
                    && p.content.value.mode == mode
                    && (mode != CONTENT_FULL ==> p.content.value.full == [])
                    && (mode != CONTENT_SHA256 ==> p.content.value.sha256 == ""))
  {
  }

  // What an event's content becomes for each mode. Without content nothing changes. Raw
  // content is decoded, and carried as a JSON string that decodes to the same, as its
  // digest, or not at all; content that is projected already may only stay or be omitted.
  lemma ProjectedExactly(codec: Codec, e: EventValue, mode: string)
    requires Faithful(codec)
    ensures var p := Project(codec, e, mode);
            if mode != "full" && mode != "sha256" && mode != "omit" then p == Refused(InvalidProjection)
            else if e.content.None? then p == Projected(e)
            else
              var c := e.content.value;
              var hashed := c.mode == "sha256" && c.full == [] && |c.sha256| == 64 && codec.isHex(c.sha256);
              var omitted := c.mode == "omit" && c.full == [] && c.sha256 == "";
              var raw := if c.mode == "full" && c.sha256 == "" then codec.decode(c.full) else None;
              if raw.None? && !hashed && !omitted then p == Refused(InvalidContent)
              else if raw.Some? && c.full != [] then
                && p.Projected? && p.event.content.Some? && p.event == e.(content := p.event.content)
                && var d := p.event.content.value;
                && d.mode == mode
                && (mode == "full" ==> d.sha256 == "" && codec.decode(d.full) == raw)
                && (mode == "sha256" ==> d.sha256 == codec.digest(raw.value) && d.full == [])
                && (mode == "omit" ==> d.sha256 == "" && d.full == [])
              else if mode == "omit" then p == Projected(e.(content := Some(ContentValue("omit", "", []))))
              else p == if c.mode == mode then Projected(e) else Refused(CannotWiden)
  {
  }

  // A JSON codec that reads back what it writes, and hexadecimal digests.
  ghost predicate Faithful(codec: Codec) {
    && (forall raw :: codec.decode(codec.encode(raw)) == Some(raw) && codec.encode(raw) != [])
    && (forall raw :: |codec.digest(raw)| == 64 && codec.isHex(codec.digest(raw)))
  }

  // What a Consumer has been given can be projected for it again without change,
  // and never widened.
  lemma ProjectedStaysProjected(codec: Codec, e: EventValue, mode: string, other: string)
    requires Faithful(codec) && Project(codec, e, mode).Projected?
    ensures var p := Project(codec, e, mode).event;
            && Project(codec, p, mode) == Projected(p)
            && (mode != CONTENT_FULL && other != mode && p.content.Some? && ValidMode(other) ==>
                  Project(codec, p, other) == Refused(CannotWiden)
                  || (other == CONTENT_OMIT && Project(codec, p, other).Projected?))
  {
    ProjectionWithholds(codec, e, mode);
  }

  // ----- The heap -----

  // The backing store of a byte slice. Nothing writes to one after it is filled,
  // so its bytes are constant; sharing is a matter of identity.
  class Buffer {
    const bytes: seq<byte>

    constructor (bytes: seq<byte>)
      ensures this.bytes == bytes
    {
      this.bytes := bytes;
    }
  }

  class Content {
    const mode: string
    const sha256: string
    const full: Buffer

    constructor (mode: string, sha256: string, full: Buffer)
      ensures this.mode == mode && this.sha256 == sha256 && this.full == full
    {
      this.mode, this.sha256, this.full := mode, sha256, full;
    }
  }

  // An event: everything but its content travels by value.
  datatype Event = Event(typ: string, metadata: string, content: Content?)

  // The zero value returned beside an error.
  const ZERO_EVENT := Event("", "", null)

  function ValueOf(event: Event): EventValue {
    EventValue(event.typ, event.metadata,
               if event.content == null then None
               else Some(ContentValue(event.content.mode, event.content.sha256, event.content.full.bytes)))
  }

  // No buffer of the event is shared with anything allocated before.
  twostate predicate Owned(new event: Event) {
    event.content != null ==>
      fresh(event.content) && (event.content.full.bytes == [] || fresh(event.content.full))
  }

  method ProjectEvent(codec: Codec, event: Event, mode: string) returns (projected: Event, fault: Option<Fault>)
    ensures match Project(codec, ValueOf(event), mode)
            case Refused(f) => fault == Some(f) && projected == ZERO_EVENT
            case Projected(v) => fault == None && ValueOf(projected) == v && Owned(projected)
  {
    projected, fault := ZERO_EVENT, None;
    if !ValidMode(mode) {
      return projected, Some(InvalidProjection);
    }
    if event.content == null {
      return event, None;
    }
    var c := event.content;
    var value := ContentValue(c.mode, c.sha256, c.full.bytes);
    if !ValidContent(codec, value) {
      return projected, Some(InvalidContent);
    }
    if c.mode != CONTENT_FULL || |c.full.bytes| == 0 {
      if mode == CONTENT_OMIT {
        var empty := new Buffer([]);
        var content := new Content(CONTENT_OMIT, "", empty);
        return event.(content := content), None;
      }
      if mode == c.mode {
        var content := new Content(c.mode, c.sha256, c.full);
        return event.(content := content), None;
      }
      return projected, Some(CannotWiden);
    }
    var applied := ApplyMode(codec, mode, codec.decode(c.full.bytes).value);
    var buffer := new Buffer(applied.full);
    var content := new Content(applied.mode, applied.sha256, buffer);
    return event.(content := content), None;
  }

  class ConsumerWorker {
    const id: string
    const events: set<string>
    const projection: string
    var queue: seq<Event>
    var dead: bool
    ghost var values: seq<EventValue>

    constructor (id: string, events: set<string>, projection: string)
      ensures Valid() && ViewOf() == View(events, projection, false, [])
    {
      this.id, this.events, this.projection := id, events, projection;
      queue, dead, values := [], false, [];
    }

    ghost predicate Valid()
      reads this
    {
      && |values| == |queue| <= QUEUE_SIZE
      && forall i :: 0 <= i < |queue| ==> ValueOf(queue[i]) == values[i]
    }

    ghost function ViewOf(): View
      reads this
    {
      View(events, projection, dead, values)
    }

    method Enqueue(event: Event) returns (fault: Option<Fault>)
      requires Valid()
      modifies this`queue, this`values
      ensures Valid()
      ensures Offered(values, fault) == Admit(old(ViewOf()), ValueOf(event))
      ensures queue == if fault == None then old(queue) + [event] else old(queue)
    {
      if dead {
        return Some(Unavailable);
      }
      if |queue| >= QUEUE_SIZE {
        return Some(QueueFull);
      }
      values := values + [ValueOf(event)];
      queue := queue + [event];
      return None;
    }

    method OfferEvent(codec: Codec, event: Event) returns (fault: Option<Fault>)
      requires Valid()
      modifies this`queue, this`values
      ensures Valid()
      ensures Offered(values, fault) == Offer(codec, old(ViewOf()), ValueOf(event))
      ensures Extended(old(queue), queue)
    {
      if event.typ !in events {
        return None;
      }
      var projected, refused := ProjectEvent(codec, event, projection);
      if refused != None {
        return refused;
      }
      fault := Enqueue(projected);
    }
  }

  // ----- The cached fan-out -----

  function ProjectionSlot(mode: string): (slot: int)
    ensures -1 <= slot < 3
    ensures slot >= 0 <==> ValidMode(mode)
  {
    if mode == CONTENT_FULL then 0
    else if mode == CONTENT_SHA256 then 1
    else if mode == CONTENT_OMIT then 2
    else -1
  }

  lemma SlotNamesMode(a: string, b: string)
    requires ProjectionSlot(a) == ProjectionSlot(b) >= 0
    ensures a == b
  {
  }

  datatype Cache = Empty | Ready(event: Event, fault: Option<Fault>)

  ghost predicate CacheOk(codec: Codec, value: EventValue, slot: nat, cache: Cache)
  {
    cache.Ready? ==>
      forall mode :: ProjectionSlot(mode) == slot ==>
        match Project(codec, value, mode)
        case Refused(f) => cache.fault == Some(f)
        case Projected(v) => cache.fault == None && ValueOf(cache.event) == v
  }

  // Queue an independent copy of a cached projection.
  method EnqueueCopy(worker: ConsumerWorker, cached: Event) returns (fault: Option<Fault>)
    requires worker.Valid()
    modifies worker`queue, worker`values
    ensures worker.Valid()
    ensures Offered(worker.values, fault) == Admit(old(worker.ViewOf()), ValueOf(cached))
    ensures Extended(old(worker.queue), worker.queue)
    ensures Unshared(Growth(old(worker.queue), worker.queue), cached.content)
  {
    var projected := cached;
    if projected.content != null {
      var buffer := new Buffer(cached.content.full.bytes);
      var content := new Content(cached.content.mode, cached.content.sha256, buffer);
      projected := projected.(content := content);
    }
    fault := worker.Enqueue(projected);
  }

  // The queue is as before, or has one more event that owns its buffers.
  twostate predicate Extended(before: seq<Event>, new after: seq<Event>) {
    after == before || (|after| > 0 && after[..|after| - 1] == before && Owned(after[|after| - 1]))
  }

  // Two contents with no object or buffer in common.
  predicate Unshared(a: Content?, b: Content?) {
    a != null && b != null ==> a != b && (a.full != b.full || a.full.bytes == [])
  }

  // The content by which a queue grew, if it did.
  function Growth(before: seq<Event>, after: seq<Event>): Content? {
    if |after| > |before| then after[|after| - 1].content else null
  }

  // One subscribed Consumer's turn with the cache of its projection mode, which
  // is filled if it is empty.
  method OfferShared(codec: Codec, consumer: ConsumerWorker, event: Event, cache: Cache)
    returns (fault: Option<Fault>, cache': Cache)
    requires consumer.Valid() && event.typ in consumer.events && ProjectionSlot(consumer.projection) >= 0
    requires CacheOk(codec, ValueOf(event), ProjectionSlot(consumer.projection), cache)
    modifies consumer`queue, consumer`values
    ensures consumer.Valid()
    ensures Offered(consumer.values, fault) == Offer(codec, old(consumer.ViewOf()), ValueOf(event))
    ensures Extended(old(consumer.queue), consumer.queue)
    ensures CacheOk(codec, ValueOf(event), ProjectionSlot(consumer.projection), cache')
    ensures cache'.Ready? && (cache' == cache || Owned(cache'.event))
    ensures Unshared(Growth(old(consumer.queue), consumer.queue), cache'.event.content)
  {
    cache' := cache;
    if cache'.Empty? {
      var projected, refused := ProjectEvent(codec, event, consumer.projection);
      cache' := Ready(projected, refused);
      forall mode | ProjectionSlot(mode) == ProjectionSlot(consumer.projection) ensures mode == consumer.projection {
        SlotNamesMode(mode, consumer.projection);
      }
    }
    fault := cache'.fault;
    if fault == None {
      fault := EnqueueCopy(consumer, cache'.event);
    }
  }

  // Nothing of the content is in any of the caches.
  predicate OffCaches(content: Content?, cached: seq<Cache>) {
    forall s :: 0 <= s < |cached| && cached[s].Ready? ==> Unshared(content, cached[s].event.content)
  }

  // The contents gained so far have nothing in common with each other or the caches.
  predicate AllApart(gained: seq<Content?>, cached: seq<Cache>) {
    && (forall i, j :: 0 <= i < j < |gained| ==> Unshared(gained[i], gained[j]))
    && (forall i :: 0 <= i < |gained| ==> OffCaches(gained[i], cached))
  }

  ghost predicate CachesOk(codec: Codec, value: EventValue, cached: seq<Cache>)
  {
    |cached| == 3 && forall s :: 0 <= s < 3 ==> CacheOk(codec, value, s, cached[s])
  }

  // The Consumer was offered the event: its queue and fault are those of a
  // plain offer, and its queue grew by the gained content, if at all.
  ghost predicate Served(codec: Codec, value: EventValue, consumer: ConsumerWorker, view: View, queue: seq<Event>,
                         fault: Option<Fault>, gained: Content?)
    reads consumer
  {
    && consumer.Valid()
    && consumer.ViewOf() == view.(queue := consumer.values)
    && Offered(consumer.values, fault) == Offer(codec, view, value)
    && (|| (consumer.queue == queue && gained == null)
        || (|consumer.queue| == |queue| + 1 && consumer.queue[..|queue|] == queue
            && consumer.queue[|queue|].content == gained))
  }

  // One pass of the loop over Consumers.
  method OfferNext(codec: Codec, consumer: ConsumerWorker, event: Event, several: bool, counts: seq<int>,
                   cached: seq<Cache>, ghost earlier: seq<Content?>)
    returns (fault: Option<Fault>, cached': seq<Cache>, ghost gained: Content?)
    requires consumer.Valid() && |counts| == 3 && CachesOk(codec, ValueOf(event), cached) && AllApart(earlier, cached)
    modifies consumer`queue, consumer`values
    ensures Served(codec, ValueOf(event), consumer, old(consumer.ViewOf()), old(consumer.queue), fault, gained)
    ensures gained != null ==> fresh(gained) && (gained.full.bytes == [] || fresh(gained.full))
    ensures CachesOk(codec, ValueOf(event), cached') && AllApart(earlier + [gained], cached')
  {
    hide Project;
    fault, cached' := None, cached;
    if !several {
      fault := consumer.OfferEvent(codec, event);
    } else if event.typ in consumer.events {
      var slot := ProjectionSlot(consumer.projection);
      if slot < 0 || counts[slot] < 2 {
        fault := consumer.OfferEvent(codec, event);
      } else {
        var cache;
        fault, cache := OfferShared(codec, consumer, event, cached[slot]);
        cached' := cached[slot := cache];
      }
    }
    gained := Growth(old(consumer.queue), consumer.queue);
    forall i | 0 <= i < |earlier| ensures Unshared(earlier[i], gained) && OffCaches(earlier[i], cached') {
      assert OffCaches(earlier[i], cached);
    }
    assert OffCaches(gained, cached');
  }

  method OfferConsumers(codec: Codec, consumers: seq<ConsumerWorker>, event: Event)
    returns (faults: seq<Option<Fault>>, ghost gained: seq<Content?>, ghost caches: seq<Cache>)
    requires forall i :: 0 <= i < |consumers| ==> consumers[i].Valid()
    requires forall i, j :: 0 <= i < j < |consumers| ==> consumers[i] != consumers[j]
    modifies set c | c in consumers
    ensures |faults| == |gained| == |consumers|
    ensures forall i :: 0 <= i < |consumers| ==>
              Served(codec, ValueOf(event), consumers[i], old(consumers[i].ViewOf()), old(consumers[i].queue),
                     faults[i], gained[i])
    ensures forall i :: 0 <= i < |consumers| && gained[i] != null ==>
              fresh(gained[i]) && (gained[i].full.bytes == [] || fresh(gained[i].full))
    ensures CachesOk(codec, ValueOf(event), caches) && AllApart(gained, caches)
  {
    hide Served, CachesOk, AllApart, OffCaches, Unshared;
    faults, gained := [], [];
    var counts := CountModes(consumers, event);
    var cached: seq<Cache> := [Empty, Empty, Empty];
    NothingCached(codec, ValueOf(event));
    for i := 0 to |consumers|
      invariant |faults| == |gained| == i
      invariant CachesOk(codec, ValueOf(event), cached)
      invariant forall j :: i <= j < |consumers| ==> consumers[j].Valid() && unchanged(consumers[j])
      invariant forall j :: 0 <= j < i ==>
                  Served(codec, ValueOf(event), consumers[j], old(consumers[j].ViewOf()), old(consumers[j].queue),
                         faults[j], gained[j])
      invariant forall j :: 0 <= j < i && gained[j] != null ==>
                  fresh(gained[j]) && (gained[j].full.bytes == [] || fresh(gained[j].full))
      invariant AllApart(gained, cached)
    {
      var fault;
      ghost var gain;
      fault, cached, gain := OfferNext(codec, consumers[i], event, |consumers| >= 2, counts, cached, gained);
      faults := faults + [fault];
      gained := gained + [gain];
    }
    caches := cached;
  }

  lemma NothingCached(codec: Codec, value: EventValue)
    ensures CachesOk(codec, value, [Empty, Empty, Empty]) && AllApart([], [Empty, Empty, Empty])
  {
  }

  // The first loop: how many subscribed Consumers want each mode. With a single
  // Consumer nothing is counted.
  method CountModes(consumers: seq<ConsumerWorker>, event: Event) returns (counts: seq<int>)
    ensures |counts| == 3
  {
    counts := [0, 0, 0];
    if |consumers| >= 2 {
      for i := 0 to |consumers|
        invariant |counts| == 3
      {
        if event.typ in consumers[i].events {
          var slot := ProjectionSlot(consumers[i].projection);
          if slot >= 0 {
            counts := counts[slot := counts[slot] + 1];
          }
        }
      }
    }
  }
}
