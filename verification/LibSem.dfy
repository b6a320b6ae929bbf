// The per-backend cap on library hops: one buffered channel per backend, as a
// class and as the protocol its two call sites follow.
module LibSem {
  /* Slots */

  function Taken(ch: map<string, nat>, name: string): nat {
    if name in ch then ch[name] else 0
  }

  // slot: the channel of name exists from now on.
  function Slotted(ch: map<string, nat>, name: string): map<string, nat> {
    ch[name := Taken(ch, name)]
  }

  // A send, and a receive (or the default branch on an empty channel).
  function Take(ch: map<string, nat>, name: string): map<string, nat> {
    ch[name := Taken(ch, name) + 1]
  }

  function Give(ch: map<string, nat>, name: string): map<string, nat> {
    ch[name := if Taken(ch, name) > 0 then Taken(ch, name) - 1 else 0]
  }

  /* The semaphore as it runs */

  class Semaphore {
    const max: int
    var ch: map<string, nat>  // how many slots of each channel are taken

    ghost predicate Valid()
      reads this
    {
      max >= 1 && forall name :: name in ch ==> ch[name] <= max
    }

    constructor (max: int)
      ensures Valid() && this.max == (if max < 1 then 1 else max) && ch == map[]
    {
      this.max := if max < 1 then 1 else max;
      ch := map[];
    }

    method Slot(name: string)
      requires Valid()
      modifies this
      ensures Valid() && ch == Slotted(old(ch), name)
    {
      if name !in ch {
        ch := ch[name := 0];
      }
    }

    // One select of acquire: ready says which cases could run, send is the one
    // chosen among them.
    method Acquire(name: string, cancelled: bool, send: bool) returns (acquired: bool)
      requires Valid()
      requires if send then Taken(ch, name) < max else cancelled
      modifies this
      ensures Valid() && acquired == send
      ensures ch == if acquired then Take(old(ch), name) else Slotted(old(ch), name)
    {
      Slot(name);
      if send {
        ch := ch[name := ch[name] + 1];
      }
      acquired := send;
    }

    method Release(name: string) returns (received: bool)
      requires Valid()
      modifies this
      ensures Valid() && received == (Taken(old(ch), name) > 0)
      ensures ch == Give(old(ch), name)
    {
      Slot(name);
      received := ch[name] > 0;
      if received {
        ch := ch[name := ch[name] - 1];
      }
    }
  }

  /* The protocol of the two call sites */

  // A request handler: its backend, whether its path is a library path, and how
  // far it is.  Both call sites acquire first, hop only if that succeeded, and
  // release (deferred) exactly when the hop is over.
  datatype Phase = Waiting | Holding | Refused | Finished

  datatype Handler = Handler(backend: string, library: bool, phase: Phase)

  datatype Sys = Sys(ch: map<string, nat>, handlers: map<nat, Handler>)

  datatype Step =
    | Arrive(id: nat, backend: string, library: bool)
    | Acquired(id: nat)
    | Cancelled(id: nat)  // the request context ends while waiting
    | Released(id: nat)

  // A step whose guard does not hold cannot happen; it leaves the system alone.
  function Next(max: nat, s: Sys, st: Step): Sys {
    match st
    case Arrive(id, b, library) =>
      if id in s.handlers then s else s.(handlers := s.handlers[id := Handler(b, library, Waiting)])
    case Acquired(id) =>
      if id !in s.handlers || s.handlers[id].phase != Waiting then s
      else
        var h := s.handlers[id];
        if !h.library then s.(handlers := s.handlers[id := h.(phase := Holding)])
        else if Taken(s.ch, h.backend) < max then
          Sys(Take(s.ch, h.backend), s.handlers[id := h.(phase := Holding)])
        else s
    case Cancelled(id) =>
      if id in s.handlers && s.handlers[id].phase == Waiting && s.handlers[id].library
      then Sys(Slotted(s.ch, s.handlers[id].backend), s.handlers[id := s.handlers[id].(phase := Refused)]) else s
    case Released(id) =>
      if id !in s.handlers || s.handlers[id].phase != Holding then s
      else
        var h := s.handlers[id];
        var handlers := s.handlers[id := h.(phase := Finished)];
        if h.library then Sys(Give(s.ch, h.backend), handlers)
        else s.(handlers := handlers)
  }

  function Run(max: nat, steps: seq<Step>): Sys {
    if |steps| == 0 then Sys(map[], map[]) else Next(max, Run(max, steps[..|steps| - 1]), steps[|steps| - 1])
  }

  // The library handlers of backend that are between acquire and release.
  ghost function Holders(s: Sys, backend: string): set<nat> {
    set id | id in s.handlers && s.handlers[id] == Handler(backend, true, Holding)
  }

  ghost predicate Inv(max: nat, s: Sys) {
    forall b :: |Holders(s, b)| == Taken(s.ch, b) <= max
  }

  lemma NextKeeps(max: nat, s: Sys, st: Step)
    requires Inv(max, s)
    ensures Inv(max, Next(max, s, st))
  {
    var s' := Next(max, s, st);
    forall b ensures |Holders(s', b)| == Taken(s'.ch, b) <= max {
      assert |Holders(s, b)| == Taken(s.ch, b) <= max;
      HoldersNext(max, s, st, b);
    }
  }

  // How one step changes one backend's holders.
  lemma HoldersNext(max: nat, s: Sys, st: Step, b: string)
    requires Inv(max, s)
    ensures var s' := Next(max, s, st);
      |Holders(s', b)| - |Holders(s, b)| == Taken(s'.ch, b) - Taken(s.ch, b)
  {
    var before := Holders(s, b);
    HoldersAfter(max, s, st, b);
    assert |before| == Taken(s.ch, b);
    assert st.id !in before ==> |before + {st.id}| == |before| + 1;
  }

  lemma HoldersAfter(max: nat, s: Sys, st: Step, b: string)
    ensures var s', id, before := Next(max, s, st), st.id, Holders(s, b);
      Holders(s', b) ==
        if s' == s || id !in s.handlers || !s.handlers[id].library || s.handlers[id].backend != b then before
        else if st.Acquired? then before + {id}
        else if st.Released? then before - {id}
        else before
  {
    var s', id, before := Next(max, s, st), st.id, Holders(s, b);
    forall i | i != id ensures i in Holders(s', b) <==> i in before {
      assert (i in s'.handlers <==> i in s.handlers) && (i in s.handlers ==> s'.handlers[i] == s.handlers[i]);
    }
  }

  // Safety in every interleaving: per backend, the handlers inside a library hop
  // are exactly the taken slots and never more than max.
  lemma {:induction false} HoldersAreSlots(max: nat, steps: seq<Step>)
    ensures Inv(max, Run(max, steps))
  {
    if |steps| == 0 {
      forall b ensures |Holders(Run(max, steps), b)| == Taken(Run(max, steps).ch, b) <= max {
        assert Holders(Run(max, steps), b) == {};
      }
    } else {
      HoldersAreSlots(max, steps[..|steps| - 1]);
      NextKeeps(max, Run(max, steps[..|steps| - 1]), steps[|steps| - 1]);
    }
  }

  // So a release always finds its token: the default branch is unreachable.
  lemma ReleaseFindsToken(max: nat, steps: seq<Step>, id: nat)
    requires var s := Run(max, steps); id in s.handlers && s.handlers[id].library && s.handlers[id].phase == Holding
    ensures var s := Run(max, steps); Taken(s.ch, s.handlers[id].backend) > 0
  {
    HoldersAreSlots(max, steps);
    var s := Run(max, steps);
    assert id in Holders(s, s.handlers[id].backend);
  }

  // A cancelled wait takes no slot, and neither does a request off the library paths.
  lemma OthersTakeNoSlot(max: nat, s: Sys, id: nat, b: string)
    ensures Taken(Next(max, s, Cancelled(id)).ch, b) == Taken(s.ch, b)
    ensures id in s.handlers && !s.handlers[id].library ==>
      Next(max, s, Acquired(id)).ch == s.ch && Next(max, s, Released(id)).ch == s.ch
  {
  }

  // When every holder has released, every slot is free again.
  lemma SlotsComeBack(max: nat, steps: seq<Step>, b: string)
    requires forall id :: id in Run(max, steps).handlers ==> Run(max, steps).handlers[id].phase != Holding
    ensures Taken(Run(max, steps).ch, b) == 0
  {
    HoldersAreSlots(max, steps);
    assert Holders(Run(max, steps), b) == {};
  }
}
