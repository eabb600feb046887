/** HTTP requests that wait for a response from the pipeline (internal/incoming/web/api_files.go): each waiter
    has a channel with room for one response, kept in a map until its response is there. */
module Waiters {
  import opened Text

  datatype Response = Response(fileID: string, shardKey: string, error: string)

  /** A buffered channel; to send into a full one would block. `sent` logs all it ever carried. */
  class Channel {
    const capacity: nat
    var buffer: seq<Response>
    ghost var sent: seq<Response>

    constructor (capacity: nat)
      ensures this.capacity == capacity && buffer == [] && sent == []
    {
      this.capacity, buffer, sent := capacity, [], [];
    }

    method Send(r: Response)
      requires |buffer| < capacity
      modifies this
      ensures buffer == old(buffer) + [r] && sent == old(sent) + [r]
    {
      buffer, sent := buffer + [r], sent + [r];
    }

    method Receive() returns (r: Response)
      requires buffer != []
      modifies this
      ensures [r] + buffer == old(buffer) && sent == old(sent)
    {
      r, buffer := buffer[0], buffer[1..];
    }
  }

  /** The key a response is looked up under. */
  function KeyOf(fileID: string): string {
    TrimSuffix(fileID, ".ach")
  }

  /** One map of waiters with the listener that serves it. The lock makes each method atomic. */
  class Rendezvous {
    var active: map<string, Channel>
    ghost var registered: map<Channel, string>

    /** A waiter has got at most one response, one for its key, and has not both taken and kept it. */
    ghost predicate Served(c: Channel, key: string)
      reads c
    {
      && c.capacity == 1 && |c.sent| <= 1
      && (c.buffer == [] || c.buffer == c.sent)
      && forall r | r in c.sent :: KeyOf(r.fileID) == key
    }

    /** The channels in the map are those registered under their keys, and nothing was sent to them. */
    ghost predicate Valid()
      reads this, registered.Keys
    {
      && (forall c | c in registered :: Served(c, registered[c]))
      && (forall k | k in active :: active[k] in registered && registered[active[k]] == k && active[k].sent == [])
    }

    /** In every state that is reached the channels in the map are distinct and empty. */
    lemma ActiveDistinctAndEmpty()
      requires Valid()
      ensures forall k, l | k in active && l in active && active[k] == active[l] :: k == l
      ensures forall k | k in active :: active[k].buffer == [] && active[k].capacity == 1
    {
      forall k | k in active ensures active[k].buffer == [] { assert Served(active[k], k); }
    }

    constructor ()
      ensures Valid() && active == map[] && registered == map[]
    {
      active, registered := map[], map[];
    }

    /** A waiter under a key replaces an earlier one, which stays registered but gets nothing more. */
    method Register(key: string) returns (waiter: Channel)
      requires Valid()
      modifies this
      ensures Valid() && fresh(waiter) && waiter.sent == []
      ensures active == old(active)[key := waiter] && registered == old(registered)[waiter := key]
    {
      waiter := new Channel(1);
      active, registered := active[key := waiter], registered[waiter := key];
    }

    /** The listener, under the lock: the send never blocks, since `Send` would not verify if it could. */
    method Deliver(resp: Response)
      requires Valid()
      modifies this, registered.Keys
      ensures Valid() && registered == old(registered)
      ensures active == old(active) - {KeyOf(resp.fileID)}
      ensures forall c | c in registered ::
                c.sent == old(c.sent) +
                  (if KeyOf(resp.fileID) in old(active) && c == old(active)[KeyOf(resp.fileID)] then [resp] else [])
    {
      var fileID := KeyOf(resp.fileID);
      if fileID in active {
        var out := active[fileID];
        ActiveDistinctAndEmpty();
        out.Send(resp);
        active := active - {fileID};
      }
    }

    /** The waiter picks its response up. */
    method Take(waiter: Channel) returns (resp: Response)
      requires Valid() && waiter in registered && waiter.buffer != []
      modifies waiter
      ensures Valid() && waiter.sent == [resp] == old(waiter.sent) && waiter.buffer == []
      ensures KeyOf(resp.fileID) == registered[waiter]
    {
      assert Served(waiter, registered[waiter]);
      resp := waiter.Receive();
    }
  }

  /** What may happen to one map, in any order and any number of times. */
  datatype Event = Registers(key: string) | Responds(resp: Response) | Takes(waiter: nat)

  /** What has become of a waiter: the first response for its key reaches it, unless another waiter has
      taken its place before. */
  datatype Status = Waits | Replaced | Answered(resp: Response)

  function Next(status: Status, key: string, e: Event): Status {
    if status != Waits then status
    else match e
      case Registers(k) => if k == key then Replaced else Waits
      case Responds(resp) => if KeyOf(resp.fileID) == key then Answered(resp) else Waits
      case Takes(_) => Waits
  }

  function StatusOf(key: string, since: seq<Event>): Status {
    if since == [] then Waits else Next(StatusOf(key, since[..|since| - 1]), key, since[|since| - 1])
  }

  function SentTo(status: Status): seq<Response> {
    if status.Answered? then [status.resp] else []
  }

  /** The waiters registered so far, each where it should be. */
  ghost predicate Tracks(rendezvous: Rendezvous, waiters: seq<Channel>, keys: seq<string>, starts: seq<nat>,
      events: seq<Event>, n: nat)
    requires n <= |events|
    reads rendezvous, rendezvous.registered.Keys, waiters
  {
    && |waiters| == |keys| == |starts| && rendezvous.Valid()
    && (forall i, j | 0 <= i < j < |waiters| :: waiters[i] != waiters[j])
    && (forall i | 0 <= i < |waiters| :: starts[i] < n && events[starts[i]] == Registers(keys[i]))
    && (forall i | 0 <= i < |waiters| ::
        waiters[i] in rendezvous.registered && rendezvous.registered[waiters[i]] == keys[i])
    && (forall i | 0 <= i < |waiters| ::
          var status := StatusOf(keys[i], events[starts[i] + 1..n]);
          && waiters[i].sent == SentTo(status)
          && (status == Waits <==> keys[i] in rendezvous.active && rendezvous.active[keys[i]] == waiters[i]))
  }

  /** The status of every waiter moves on by one event. */
  lemma AllNext(keys: seq<string>, starts: seq<nat>, events: seq<Event>, n: nat)
    requires |keys| == |starts| && n < |events| && forall i | 0 <= i < |starts| :: starts[i] < n
    ensures forall i | 0 <= i < |starts| ::
              StatusOf(keys[i], events[starts[i] + 1..n + 1]) ==
                  Next(StatusOf(keys[i], events[starts[i] + 1..n]), keys[i], events[n])
  {
    forall i | 0 <= i < |starts|
      ensures StatusOf(keys[i], events[starts[i] + 1..n + 1]) ==
          Next(StatusOf(keys[i], events[starts[i] + 1..n]), keys[i], events[n])
    {
      assert events[starts[i] + 1..n + 1][..n - starts[i] - 1] == events[starts[i] + 1..n];
    }
  }

  method RegisterNext(rendezvous: Rendezvous, waiters: seq<Channel>, keys: seq<string>, starts: seq<nat>,
                      ghost events: seq<Event>, n: nat, key: string) returns (waiter: Channel)
    requires n < |events| && events[n] == Registers(key) && Tracks(rendezvous, waiters, keys, starts, events, n)
    modifies rendezvous
    ensures fresh(waiter) && rendezvous.registered == old(rendezvous.registered)[waiter := key]
    ensures Tracks(rendezvous, waiters + [waiter], keys + [key], starts + [n], events, n + 1)
  {
    AllNext(keys, starts, events, n);
    waiter := rendezvous.Register(key);
    assert forall i | 0 <= i < |waiters| :: waiters[i] != waiter;
    assert events[n + 1..n + 1] == [];
  }

  method RespondNext(rendezvous: Rendezvous, waiters: seq<Channel>, keys: seq<string>, starts: seq<nat>,
                     ghost events: seq<Event>, n: nat, resp: Response)
    requires n < |events| && events[n] == Responds(resp) && Tracks(rendezvous, waiters, keys, starts, events, n)
    modifies rendezvous, rendezvous.registered.Keys
    ensures rendezvous.registered == old(rendezvous.registered)
    ensures Tracks(rendezvous, waiters, keys, starts, events, n + 1)
  {
    AllNext(keys, starts, events, n);
    rendezvous.Deliver(resp);
  }

  method PickUpNext(rendezvous: Rendezvous, waiters: seq<Channel>, keys: seq<string>, starts: seq<nat>,
                  ghost events: seq<Event>, n: nat, i: nat)
    requires n < |events| && events[n] == Takes(i) && Tracks(rendezvous, waiters, keys, starts, events, n)
    modifies rendezvous.registered.Keys
    ensures Tracks(rendezvous, waiters, keys, starts, events, n + 1)
  {
    AllNext(keys, starts, events, n);
    if i < |waiters| && waiters[i].buffer != [] {
      var _ := rendezvous.Take(waiters[i]);
    }
  }

  /** However requests, responses and pickups interleave, every waiter gets exactly the first response for
      its key, and that only if no later waiter took its place before; so it gets at most one. `keys` are
      the keys in order, `starts` says when each waiter was registered. */
  method Interleave(events: seq<Event>)
    returns (rendezvous: Rendezvous, waiters: seq<Channel>, keys: seq<string>, starts: seq<nat>)
    ensures fresh(rendezvous) && rendezvous.Valid() && |waiters| == |keys| == |starts|
    ensures keys == RegisteredKeys(events)
    ensures forall i, j | 0 <= i < j < |waiters| :: waiters[i] != waiters[j]
    ensures forall i | 0 <= i < |waiters| :: starts[i] < |events| && events[starts[i]] == Registers(keys[i])
    ensures forall i | 0 <= i < |waiters| ::
        waiters[i].sent == SentTo(StatusOf(keys[i], events[starts[i] + 1..|events|]))
  {
    rendezvous := new Rendezvous();
    waiters, keys, starts := [], [], [];
    for n := 0 to |events|
      invariant fresh(rendezvous) && fresh(rendezvous.registered.Keys)
      invariant keys == RegisteredKeys(events[..n]) && Tracks(rendezvous, waiters, keys, starts, events, n)
    {
      assert events[..n + 1][..n] == events[..n];
      match events[n]
      case Registers(key) =>
        var waiter := RegisterNext(rendezvous, waiters, keys, starts, events, n, key);
        waiters, keys, starts := waiters + [waiter], keys + [key], starts + [n];
      case Responds(resp) => RespondNext(rendezvous, waiters, keys, starts, events, n, resp);
      case Takes(i) => PickUpNext(rendezvous, waiters, keys, starts, events, n, i);
    }
    assert events[..|events|] == events;
  }

  function RegisteredKeys(events: seq<Event>): seq<string> {
    if events == [] then []
    else
      var before, e := RegisteredKeys(events[..|events| - 1]), events[|events| - 1];
      if e.Registers? then before + [e.key] else before
  }

  class FilesController {
    const queueFiles: Rendezvous
    const cancellations: Rendezvous

    constructor ()
      ensures fresh(queueFiles) && fresh(cancellations) && queueFiles != cancellations
      ensures queueFiles.Valid() && cancellations.Valid()
      ensures queueFiles.registered == map[] && cancellations.registered == map[]
    {
      queueFiles := new Rendezvous();
      cancellations := new Rendezvous();
    }

    /** The create route registers the ID as it came and publishes it so. */
    method PublishFile(fileID: string) returns (waiter: Channel, published: string)
      requires queueFiles.Valid()
      modifies queueFiles
      ensures queueFiles.Valid() && fresh(waiter) && waiter.sent == []
      ensures queueFiles.active == old(queueFiles.active)[fileID := waiter]
      ensures queueFiles.registered == old(queueFiles.registered)[waiter := fileID]
      ensures published == fileID
    {
      waiter := queueFiles.Register(fileID);
      published := fileID;
    }

    /** The cancel route drops the extension first. */
    method CancelFile(fileID: string) returns (waiter: Channel, published: string)
      requires cancellations.Valid()
      modifies cancellations
      ensures cancellations.Valid() && fresh(waiter) && waiter.sent == []
      ensures cancellations.active == old(cancellations.active)[KeyOf(fileID) := waiter]
      ensures cancellations.registered == old(cancellations.registered)[waiter := KeyOf(fileID)]
      ensures published == KeyOf(fileID)
    {
      waiter := cancellations.Register(KeyOf(fileID));
      published := KeyOf(fileID);
    }

    /** A request to create a file and the pipeline's response to it, with nothing in between: the
        waiter gets the response exactly if the ID does not end in the extension. */
    method CreateAndRespond(fileID: string, shardKey: string, error: string) returns (waiter: Channel)
      requires queueFiles.Valid()
      modifies queueFiles, queueFiles.registered.Keys
      ensures queueFiles.Valid() && fresh(waiter)
      ensures waiter.sent == if HasSuffix(fileID, ".ach") then [] else [Response(fileID, shardKey, error)]
    {
      OwnKey(fileID);
      var published;
      waiter, published := PublishFile(fileID);
      queueFiles.Deliver(Response(published, shardKey, error));
    }

    /** The same for a cancel: the extension may come once, but not twice. */
    method CancelAndRespond(fileID: string, shardKey: string, error: string) returns (waiter: Channel)
      requires cancellations.Valid()
      modifies cancellations, cancellations.registered.Keys
      ensures cancellations.Valid() && fresh(waiter)
      ensures waiter.sent == if HasSuffix(KeyOf(fileID), ".ach") then [] else [Response(KeyOf(fileID), shardKey, error)]
    {
      OwnKey(KeyOf(fileID));
      var published;
      waiter, published := CancelFile(fileID);
      cancellations.Deliver(Response(published, shardKey, error));
    }
  }

  lemma OwnKey(fileID: string)
    ensures KeyOf(fileID) == fileID <==> !HasSuffix(fileID, ".ach")
  {
    assert HasSuffix(fileID, ".ach") ==> |KeyOf(fileID)| < |fileID|;
  }

  /** Two IDs that differ only in the extension answer the same waiter. */
  lemma ExtensionSharesKey(fileID: string)
    requires !HasSuffix(fileID, ".ach")
    ensures KeyOf(fileID + ".ach") == KeyOf(fileID) == fileID
  {
    TrimAppended(fileID, ".ach");
  }

  lemma {:induction false} AnswerHasKey(key: string, since: seq<Event>)
    requires StatusOf(key, since).Answered?
    ensures KeyOf(StatusOf(key, since).resp.fileID) == key
  {
    if StatusOf(key, since[..|since| - 1]) != Waits { AnswerHasKey(key, since[..|since| - 1]); }
  }

  lemma {:induction false} StatusStays(key: string, since: seq<Event>, later: seq<Event>)
    requires StatusOf(key, since) != Waits
    ensures StatusOf(key, since + later) == StatusOf(key, since)
    decreases |later|
  {
    if later == [] {
      assert since + later == since;
    } else {
      var n := |later| - 1;
      assert (since + later)[..|since| + n] == since + later[..n];
      StatusStays(key, since, later[..n]);
    }
  }

  /** In any traffic: a waiter that still waits when the response with its key for an ID comes gets it
      if and only if the key does not end in the extension; otherwise it never gets that one. */
  lemma OwnResponse(key: string, between: seq<Event>, resp: Response, later: seq<Event>)
    requires resp.fileID == key && StatusOf(key, between) == Waits
    ensures StatusOf(key, between + [Responds(resp)] + later) == Answered(resp) <==> !HasSuffix(key, ".ach")
  {
    OwnKey(key);
    var since := between + [Responds(resp)];
    assert since[..|between|] == between;
    if HasSuffix(key, ".ach") {
      if StatusOf(key, since + later).Answered? { AnswerHasKey(key, since + later); }
    } else {
      StatusStays(key, since, later);
    }
  }
}
