/** The launcher's request identities: an id is stored before the request is sent and stays with
    the same path and body until the outcome is proven. */
module RequestClient {
  import opened Wrappers
  import opened StableJson

  const MAX_PENDING_REQUESTS: nat := 64

  /** The clock's second at issue and sixteen random bytes. */
  datatype Id = Id(issuedAt: int, random: nat)

  /** What a send looks like from outside, with the ids settled before it. */
  datatype Send = Send(key: Text, id: Id, settledBefore: set<Id>)

  datatype Flight = Flight(key: Text, id: Id)

  datatype Refusal = StorageInvalid | StorageFull | StorageFailed

  datatype Answer =
    | Receipt(completed: bool)
    | NoReceipt
    | DomainFailure
    | PreviousFailed
    | OtherFailure

  /** Completion, a reply without a receipt, and proven failures settle a request. */
  predicate Settles(answer: Answer) {
    match answer
    case Receipt(completed) => completed
    case OtherFailure => false
    case _ => true
  }

  /** What the client's own reader accepts: few enough entries, each id a decimal time. */
  predicate Readable(stored: map<Text, Id>) {
    |stored| <= MAX_PENDING_REQUESTS && forall k :: k in stored ==> stored[k].issuedAt >= 0
  }

  function Forgotten(stored: map<Text, Id>, id: Id): map<Text, Id> {
    map k | k in stored && stored[k] != id :: stored[k]
  }

  lemma ForgettingShrinks(stored: map<Text, Id>, id: Id)
    ensures |Forgotten(stored, id)| <= |stored|
  {
    var kept := Forgotten(stored, id);
    assert kept.Keys <= stored.Keys;
    SubsetSize(kept.Keys, stored.Keys);
  }

  lemma DroppingShrinks(before: map<Text, Id>, after: map<Text, Id>, key: Text)
    requires (forall k :: k in after ==> k in before) && key in before && key !in after
    ensures |after| < |before|
  {
    assert after.Keys <= before.Keys - {key};
    SubsetSize(after.Keys, before.Keys - {key});
  }

  /** Everything the client stored and did. */
  datatype View = View(stored: map<Text, Id>, issued: set<Id>, settled: set<Id>, sends: seq<Send>) {
    ghost predicate OwnIds() {
      && |stored| <= MAX_PENDING_REQUESTS
      && (forall k :: k in stored ==> stored[k] in issued)
      && (forall j, k :: j in stored && k in stored && stored[j] == stored[k] ==> j == k)
    }

    /** A sent id that nothing settled is still stored under its request. */
    ghost predicate Kept() {
      forall i :: 0 <= i < |sends| ==>
        && sends[i].id in issued
        && sends[i].settledBefore <= settled
        && (sends[i].id in settled || (sends[i].key in stored && stored[sends[i].key] == sends[i].id))
    }

    ghost predicate OneRequestPerId() {
      && (forall i, j :: 0 <= i < j < |sends| && sends[i].id == sends[j].id ==> sends[i].key == sends[j].key)
      && (forall i, k :: 0 <= i < |sends| && k in stored && stored[k] == sends[i].id ==> k == sends[i].key)
    }

    /** Two sends of one request carry the same id unless the first was settled in between. */
    ghost predicate SameIdUntilSettled() {
      forall i, j :: 0 <= i < j < |sends| && sends[i].key == sends[j].key ==>
        sends[i].id == sends[j].id || sends[i].id in sends[j].settledBefore
    }

    ghost predicate Consistent() {
      OwnIds() && Kept() && OneRequestPerId() && SameIdUntilSettled()
    }
  }

  lemma StoringKeeps(v: View, key: Text, id: Id)
    requires v.Consistent() && key !in v.stored && id !in v.issued && |v.stored| < MAX_PENDING_REQUESTS
    ensures v.(stored := v.stored[key := id], issued := v.issued + {id}).Consistent()
  {
    var w := v.(stored := v.stored[key := id], issued := v.issued + {id});
    assert w.stored.Keys == v.stored.Keys + {key};
  }

  lemma SendingKeeps(v: View, key: Text)
    requires v.Consistent() && key in v.stored
    ensures v.(sends := v.sends + [Send(key, v.stored[key], v.settled)]).Consistent()
  {
  }

  lemma SettlingKeeps(v: View, id: Id, forgotten: bool)
    requires v.Consistent()
    ensures v.(settled := v.settled + {id}, stored := if forgotten then Forgotten(v.stored, id) else v.stored).Consistent()
  {
    ForgettingShrinks(v.stored, id);
  }

  /** In terms of requests: the same path and body, up to key order, keep their id until it is
      settled, and no id ever serves two different requests. */
  lemma IdsFollowRequests(v: View, i: nat, j: nat, p: Text, a: Json, q: Text, b: Json)
    requires v.Consistent() && i < j < |v.sends| && WellFormed(a) && WellFormed(b)
    requires v.sends[i].key == Payload(p, a) && v.sends[j].key == Payload(q, b)
    ensures p == q && Same(a, b) ==>
      v.sends[i].id == v.sends[j].id || v.sends[i].id in v.sends[j].settledBefore
    ensures v.sends[i].id == v.sends[j].id ==> p == q && Same(a, b)
  {
    PayloadIdentifiesRequest(p, a, q, b);
  }

  datatype Moment = Moment(view: View, flights: map<nat, Flight>, reliable: bool)

  datatype Event =
    | Posts(path: Text, body: Json, call: nat, minted: Id)
    | Answers(call: nat, answer: Answer)
    | Forgets(id: Id)
    | Restarts

  /** What every event does to the client. A post under a call or id already in use is no event. */
  ghost predicate Advances(event: Event, before: Moment, after: Moment) {
    var v, w := before.view, after.view;
    match event
    case Posts(path, body, call, minted) =>
      var key := Payload(path, body);
      && w.settled == v.settled
      && (!Readable(v.stored) || call in before.flights || minted in v.issued ==> after == before)
      && (Readable(v.stored) && call !in before.flights && minted !in v.issued
          && (key in v.stored || (before.reliable && |v.stored| < 64)) ==>
            var id := if key in v.stored then v.stored[key] else minted;
            && w.sends == v.sends + [Send(key, id, v.settled)]
            && after.flights == before.flights[call := Flight(key, id)]
            && w.stored == v.stored[key := id])
    case Answers(call, answer) =>
      && after.flights == before.flights - {call} && w.sends == v.sends
      && (if call !in before.flights || answer == OtherFailure || answer == Receipt(false) then
            w == v
          else
            && w.settled == v.settled + {before.flights[call].id}
            && (before.reliable && Readable(v.stored) ==> forall k :: k in w.stored <==> k in v.stored && v.stored[k] != before.flights[call].id))
    case Forgets(id) =>
      && after.flights == before.flights && w.sends == v.sends && w.settled == v.settled + {id}
      && (before.reliable && Readable(v.stored) ==> forall k :: k in w.stored <==> k in v.stored && v.stored[k] != id)
    case Restarts => after == before.(flights := map[])
  }

  class Client {
    // A reliable storage never fails a write.
    const reliable: bool
    var stored: map<Text, Id>
    var flights: map<nat, Flight>
    var issued: set<Id>
    ghost var settled: set<Id>
    ghost var sends: seq<Send>

    ghost function Shown(): View
      reads this
    {
      View(stored, issued, settled, sends)
    }

    /** A request in flight was sent. */
    ghost predicate Valid()
      reads this
    {
      Shown().Consistent()
    }

    constructor (reliable: bool)
      ensures Valid() && stored == map[] && flights == map[] && sends == [] && settled == {} && issued == {}
      ensures this.reliable == reliable
    {
      this.reliable := reliable;
      stored, flights, issued, settled, sends := map[], map[], {}, {}, [];
    }

    /** Finds or issues the id of a request. An issued id is stored before anybody can use it. */
    method Identify(key: Text, minted: Id) returns (refusal: Option<Refusal>)
      requires Valid() && minted !in issued
      modifies this`stored, this`issued
      ensures Valid() && issued == if stored == old(stored) then old(issued) else old(issued) + {minted}
      ensures stored == old(stored) || (key !in old(stored) && stored == old(stored)[key := minted])
      ensures refusal.None? ==> key in stored && (key !in old(stored) ==> stored[key] == minted)
      ensures refusal == Some(StorageInvalid) <==> !Readable(old(stored))
      ensures refusal == Some(StorageFull) <==>
        Readable(old(stored)) && key !in old(stored) && |old(stored)| == MAX_PENDING_REQUESTS
      ensures refusal == Some(StorageFailed) ==> !reliable && key !in old(stored)
      ensures Readable(old(stored)) && (key in old(stored) || (reliable && |old(stored)| < MAX_PENDING_REQUESTS)) ==> refusal.None?
      // What it writes can be read back, unless it issues an id while the clock stands before 1970.
      ensures reliable && Readable(old(stored)) ==>
        (Readable(stored) <==> key in old(stored) || |old(stored)| >= MAX_PENDING_REQUESTS || minted.issuedAt >= 0)
      ensures Readable(old(stored)) && minted.issuedAt >= 0 ==> Readable(stored)
      ensures refusal == Some(StorageInvalid) || refusal == Some(StorageFull) || key in old(stored) ==> stored == old(stored)
    {
      refusal := None;
      if !Readable(stored) {
        refusal := Some(StorageInvalid);
      } else if key !in stored {
        if |stored| >= MAX_PENDING_REQUESTS {
          refusal := Some(StorageFull);
        } else {
          StoringKeeps(Shown(), key, minted);
          var saved: bool, durable: bool := *, *;
          saved := saved || reliable;
          if saved || durable {
            stored := stored[key := minted];
            issued := issued + {minted};
          }
          if !saved {
            refusal := Some(StorageFailed);
          }
        }
      }
    }

    /** The part of a post up to its first wait on the network. `minted` is the id that would be
        issued now; random bytes never repeat. */
    method Post(path: Text, body: Json, call: nat, minted: Id) returns (refusal: Option<Refusal>)
      requires Valid() && minted !in issued && call !in flights
      modifies this
      ensures Valid() && settled == old(settled)
      ensures issued == if stored == old(stored) then old(issued) else old(issued) + {minted}
      // A refusal sends nothing.
      ensures refusal.Some? ==> sends == old(sends) && flights == old(flights)
      ensures refusal == Some(StorageInvalid) || refusal == Some(StorageFull) ==> stored == old(stored)
      // A send carries the stored id, and the id was stored first.
      ensures refusal.None? ==>
        var key := Payload(path, body);
        && key in stored && sends == old(sends) + [Send(key, stored[key], settled)]
        && flights == old(flights)[call := Flight(key, stored[key])]
      ensures refusal.None? ==> stored == old(stored) || stored == old(stored)[Payload(path, body) := minted]
      ensures stored == old(stored) || Payload(path, body) !in old(stored)
      ensures refusal.None? && Payload(path, body) !in old(stored) ==> stored == old(stored)[Payload(path, body) := minted]
      ensures refusal == Some(StorageInvalid) <==> !Readable(old(stored))
      ensures refusal == Some(StorageFull) <==>
        Readable(old(stored)) && Payload(path, body) !in old(stored) && |old(stored)| == MAX_PENDING_REQUESTS
      // A stored id is used again, and a reliable storage with room takes a new one.
      ensures Readable(old(stored)) && (Payload(path, body) in old(stored) || (reliable && |old(stored)| < MAX_PENDING_REQUESTS)) ==>
        refusal.None?
      ensures refusal == Some(StorageFailed) ==>
        !reliable && Payload(path, body) !in old(stored) && (stored == old(stored) || stored == old(stored)[Payload(path, body) := minted])
      // What it writes can be read back, unless it issues an id while the clock stands before 1970.
      ensures reliable && Readable(old(stored)) ==>
        (Readable(stored) <==>
          Payload(path, body) in old(stored) || |old(stored)| >= MAX_PENDING_REQUESTS || minted.issuedAt >= 0)
      ensures Readable(old(stored)) && minted.issuedAt >= 0 ==> Readable(stored)
    {
      var key := Payload(path, body);
      refusal := Identify(key, minted);
      if refusal.None? {
        SendingKeeps(Shown(), key);
        sends := sends + [Send(key, stored[key], settled)];
        flights := flights[call := Flight(key, stored[key])];
      }
    }

    /** Drops an id whose outcome is known; the storage may fail it. */
    method Forget(id: Id) returns (ok: bool)
      requires Valid()
      modifies this`stored, this`settled
      ensures Valid() && settled == old(settled) + {id}
      ensures stored == old(stored) || stored == Forgotten(old(stored), id)
      ensures ok ==> Readable(old(stored)) && forall k :: k in stored <==> k in old(stored) && old(stored)[k] != id
      ensures forall k :: k in stored ==> k in old(stored) && stored[k] == old(stored)[k]
      ensures forall k :: k in old(stored) && k !in stored ==> old(stored)[k] == id
      ensures ok || !reliable || !Readable(old(stored))
      ensures if Readable(old(stored)) then Readable(stored) else stored == old(stored)
    {
      ok := Readable(stored);
      var durable := false;
      if ok {
        ok, durable := *, *;
        ok := ok || reliable;
      }
      SettlingKeeps(Shown(), id, ok || durable);
      ForgettingShrinks(stored, id);
      settled := settled + {id};
      if ok || durable {
        stored := Forgotten(stored, id);
      }
    }

    /** The answer to one call in flight. */
    method Answered(call: nat, answer: Answer) returns (ok: bool)
      requires Valid() && call in flights
      modifies this`stored, this`settled, this`flights
      ensures Valid() && flights == old(flights) - {call}
      // An unknown outcome, or a receipt of unfinished work, keeps the id: a retry carries it again.
      ensures answer == OtherFailure || answer == Receipt(false) ==> ok && settled == old(settled) && stored == old(stored)
      // Completion, a reply without a receipt, and proven failures give it up.
      ensures answer == Receipt(true) || answer == NoReceipt || answer == DomainFailure || answer == PreviousFailed ==>
        && settled == old(settled) + {old(flights)[call].id}
        && (ok ==> forall k :: k in stored <==> k in old(stored) && old(stored)[k] != old(flights)[call].id)
      ensures ok || !reliable || !Readable(old(stored))
      ensures forall k :: k in stored ==> k in old(stored) && stored[k] == old(stored)[k]
      ensures forall k :: k in old(stored) && k !in stored ==> old(stored)[k] == old(flights)[call].id
      ensures if Readable(old(stored)) then Readable(stored) else stored == old(stored)
    {
      ok := true;
      if Settles(answer) {
        ok := Forget(flights[call].id);
      }
      flights := flights - {call};
    }

    /** A request that is answered and then posted again, with its keys in any order (see
        `PayloadIdentifiesRequest`): it carries the same id after an unknown outcome, and a new one
        after a proven outcome. */
    method PostAgain(path: Text, body: Json, again: Json, answer: Answer, first: nat, second: nat, minted: Id, next: Id)
      returns (sent: Option<Refusal>, resent: Option<Refusal>)
      requires Valid() && Payload(path, body) == Payload(path, again)
      requires first !in flights && second !in flights && minted !in issued && next !in issued + {minted}
      requires minted.issuedAt >= 0 || Payload(path, body) in stored
      modifies this
      ensures Valid()
      ensures sent.None? && (answer == OtherFailure || answer == Receipt(false)) ==>
        && resent.None? && |sends| == |old(sends)| + 2
        && sends[|sends| - 2].id == sends[|sends| - 1].id && sends[|sends| - 2].key == sends[|sends| - 1].key
      ensures sent.None? && reliable && answer != OtherFailure && answer != Receipt(false) ==>
        resent.None? && |sends| == |old(sends)| + 2 && sends[|sends| - 1].id == next != sends[|sends| - 2].id
    {
      resent := None;
      sent := Post(path, body, first, minted);
      if sent.None? {
        ghost var before := stored;
        var _ := Answered(first, answer);
        if Payload(path, body) !in stored {
          DroppingShrinks(before, stored, Payload(path, body));
        }
        resent := Post(path, again, second, next);
      }
    }

    /** The launcher restarts: what was in flight has an unknown outcome. */
    method Restart()
      requires Valid()
      modifies this`flights
      ensures Valid() && flights == map[]
    {
      flights := map[];
    }

    ghost function Here(): Moment
      reads this
    {
      Moment(Shown(), flights, reliable)
    }

    method PerformPost(event: Event)
      requires Valid() && event.Posts?
      modifies this
      ensures Valid() && settled == old(settled) && old(sends) <= sends
      ensures Advances(event, old(Here()), Here())
      ensures Readable(old(stored)) && event.minted.issuedAt >= 0 ==> Readable(stored)
      ensures !Readable(old(stored)) ==> stored == old(stored) && sends == old(sends)
    {
      if event.call !in flights && event.minted !in issued {
        var _ := Post(event.path, event.body, event.call, event.minted);
      }
    }

    method Perform(event: Event)
      requires Valid()
      modifies this
      ensures Valid() && old(settled) <= settled && old(sends) <= sends
      ensures Advances(event, old(Here()), Here())
      ensures Readable(old(stored)) && (event.Posts? ==> event.minted.issuedAt >= 0) ==> Readable(stored)
      ensures !Readable(old(stored)) ==> stored == old(stored) && sends == old(sends)
    {
      match event
      case Posts(_, _, _, _) => PerformPost(event);
      case Answers(call, answer) =>
        if call in flights {
          var _ := Answered(call, answer);
        }
      case Forgets(id) => var _ := Forget(id);
      case Restarts => Restart();
    }

    /** Any interleaving of posts, answers, explicit forgetting and restarts. With a clock past 1970
        the stored map stays readable; once it is not, the client stays shut: nothing is stored or
        sent any more. `log` holds every moment. */
    method Run(events: seq<Event>) returns (ghost log: seq<Moment>)
      requires Valid()
      modifies this
      ensures Valid() && old(settled) <= settled && old(sends) <= sends && |stored| <= 64
      ensures |log| == |events| + 1 && log[0] == old(Here()) && log[|events|] == Here()
      ensures forall n :: 0 <= n <= |events| ==> log[n].view.Consistent()
      ensures forall n :: 0 <= n < |events| ==> Advances(events[n], log[n], log[n + 1])
      ensures Readable(old(stored)) && (forall e <- events :: e.Posts? ==> e.minted.issuedAt >= 0) ==> Readable(stored)
      ensures !Readable(old(stored)) ==> stored == old(stored) && sends == old(sends)
    {
      log := [Here()];
      for n := 0 to |events|
        invariant Valid() && old(settled) <= settled && old(sends) <= sends
        invariant |log| == n + 1 && log[0] == old(Here()) && log[n] == Here()
        invariant forall m :: 0 <= m <= n ==> log[m].view.Consistent()
        invariant forall m :: 0 <= m < n ==> Advances(events[m], log[m], log[m + 1])
        invariant Readable(old(stored)) && (forall e <- events :: e.Posts? ==> e.minted.issuedAt >= 0) ==> Readable(stored)
        invariant !Readable(old(stored)) ==> stored == old(stored) && sends == old(sends)
      {
        Perform(events[n]);
        log := log + [Here()];
      }
    }
  }

  /** A run in which the client locks itself out: one request issued before 1970, after which
      every request is refused. */
  method ClockBefore1970(path: Text, body: Json, other: Text, next: Json) returns (c: Client, refusal: Option<Refusal>)
    ensures fresh(c) && !Readable(c.stored) && refusal == Some(StorageInvalid)
  {
    c := new Client(true);
    refusal := c.Post(path, body, 0, Id(-1, 0));
    refusal := c.Post(other, next, 1, Id(5, 1));
  }
}
