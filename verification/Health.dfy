// Passive auth-plane health: a pruned log of failures per backend that must
// count like the full history.
module Health {
  import opened Prelude

  datatype Status = Unknown | Healthy | Degraded | Unhealthy

  // Passive detection on, with its window and threshold.
  datatype Config = Config(passive: bool, window: int, threshold: int)

  // The outcome of the active checks of one probe; authProbe is None when the
  // active login probe is off.
  datatype Layers = Layers(reachable: bool, publicInfo: bool, jellyfinHealth: bool, authProbe: Option<bool>)

  function Logged(fails: map<string, seq<int>>, backend: string): seq<int> {
    if backend in fails then fails[backend] else []
  }

  // The failures later than cut, oldest first.
  function Later(log: seq<int>, cut: int): seq<int> {
    if |log| == 0 then []
    else
      var rest := Later(log[..|log| - 1], cut);
      if log[|log| - 1] > cut then rest + [log[|log| - 1]] else rest
  }

  function StateAfter(cfg: Config, layers: Layers, recent: nat): Status {
    if !layers.reachable then Unhealthy
    else if !layers.jellyfinHealth || !layers.publicInfo then Unhealthy
    else if (cfg.passive && recent >= cfg.threshold) || layers.authProbe == Some(false) then Degraded
    else Healthy
  }

  datatype Event = Failure(backend: string, now: int) | Probing(backend: string, layers: Layers, now: int)

  datatype Sys = Sys(fails: map<string, seq<int>>, snaps: map<string, Status>)

  function Step(cfg: Config, s: Sys, ev: Event): Sys {
    match ev
    case Failure(b, now) => if cfg.passive then s.(fails := s.fails[b := Logged(s.fails, b) + [now]]) else s
    case Probing(b, layers, now) =>
      var kept := Later(Logged(s.fails, b), now - cfg.window);
      Sys(if layers.reachable && cfg.passive then s.fails[b := kept] else s.fails,
          s.snaps[b := StateAfter(cfg, layers, |kept|)])
  }

  /* The monitor as it runs */

  class Monitor {
    const cfg: Config
    var fails: map<string, seq<int>>
    var snaps: map<string, Status>

    ghost function Contents(): Sys
      reads this
    {
      Sys(fails, snaps)
    }

    constructor (cfg: Config, backends: set<string>)
      ensures this.cfg == cfg && Contents() == Run(cfg, map b | b in backends :: Unknown, [])
    {
      this.cfg := cfg;
      fails := map[];
      snaps := map b | b in backends :: Unknown;
    }

    method RecordAuthFailure(backend: string, now: int)
      modifies this`fails
      ensures Contents() == Step(cfg, old(Contents()), Failure(backend, now))
    {
      if !cfg.passive {
        return;
      }
      fails := fails[backend := (if backend in fails then fails[backend] else []) + [now]];
    }

    method RecentFails(backend: string, now: int) returns (n: nat)
      modifies this`fails
      ensures var kept := Later(Logged(old(fails), backend), now - cfg.window);
        fails == old(fails)[backend := kept] && n == |kept|
    {
      var cut := now - cfg.window;
      var keep: seq<int> := [];
      var log := if backend in fails then fails[backend] else [];
      for i := 0 to |log|
        invariant keep == Later(log[..i], cut)
      {
        assert log[..i + 1][..i] == log[..i];
        if log[i] > cut {
          keep := keep + [log[i]];
        }
      }
      assert log[..|log|] == log;
      fails := fails[backend := keep];
      n := |keep|;
    }

    method Probe(backend: string, layers: Layers, now: int)
      modifies this
      ensures Contents() == Step(cfg, old(Contents()), Probing(backend, layers, now))
    {
      if !layers.reachable {
        snaps := snaps[backend := Unhealthy];
        return;
      }
      var authOK := true;
      if cfg.passive {
        var n := RecentFails(backend, now);
        if n >= cfg.threshold {
          authOK := false;
        }
      }
      if layers.authProbe == Some(false) {
        authOK := false;
      }
      if !layers.jellyfinHealth || !layers.publicInfo {
        snaps := snaps[backend := Unhealthy];
      } else if !authOK {
        snaps := snaps[backend := Degraded];
      } else {
        snaps := snaps[backend := Healthy];
      }
    }
  }

  /* Runs */

  // A run from New's monitor, whose snapshots are snaps.
  function Run(cfg: Config, snaps: map<string, Status>, evs: seq<Event>): Sys {
    if |evs| == 0 then Sys(map[], snaps) else Step(cfg, Run(cfg, snaps, evs[..|evs| - 1]), evs[|evs| - 1])
  }

  // Every failure of backend in the run, pruned by nobody.
  function History(evs: seq<Event>, backend: string): seq<int> {
    if |evs| == 0 then []
    else
      var ev, rest := evs[|evs| - 1], History(evs[..|evs| - 1], backend);
      if ev.Failure? && ev.backend == backend then rest + [ev.now] else rest
  }

  ghost predicate ClockRuns(evs: seq<Event>) {
    forall i, j :: 0 <= i < j < |evs| ==> evs[i].now <= evs[j].now
  }

  // Pruning at an earlier cut changes nothing at a later one.
  lemma {:induction false} LaterTwice(log: seq<int>, cut: int, cut': int)
    requires cut <= cut'
    ensures Later(Later(log, cut), cut') == Later(log, cut')
  {
    if |log| != 0 {
      var rest, last := log[..|log| - 1], log[|log| - 1];
      LaterTwice(rest, cut, cut');
      if last > cut {
        LaterPush(Later(rest, cut), last, cut');
      }
    }
  }

  // However many probes pruned the log, it counts like the full history.
  lemma {:induction false} LogIsHistory(cfg: Config, snaps: map<string, Status>, evs: seq<Event>, backend: string,
                                        cut: int)
    requires cfg.passive && ClockRuns(evs)
    requires |evs| > 0 ==> evs[|evs| - 1].now - cfg.window <= cut
    ensures Later(Logged(Run(cfg, snaps, evs).fails, backend), cut) == Later(History(evs, backend), cut)
  {
    if |evs| != 0 {
      var before, ev := evs[..|evs| - 1], evs[|evs| - 1];
      assert |before| > 0 ==> before[|before| - 1].now <= ev.now;
      LogIsHistory(cfg, snaps, before, backend, cut);
      StepCounts(cfg, Run(cfg, snaps, before), ev, backend, History(before, backend), cut);
    }
  }

  lemma StepCounts(cfg: Config, s: Sys, ev: Event, backend: string, history: seq<int>, cut: int)
    requires cfg.passive && ev.now - cfg.window <= cut
    requires Later(Logged(s.fails, backend), cut) == Later(history, cut)
    ensures var history' := if ev.Failure? && ev.backend == backend then history + [ev.now] else history;
      Later(Logged(Step(cfg, s, ev).fails, backend), cut) == Later(history', cut)
  {
    var log := Logged(s.fails, backend);
    StepLogged(cfg, s, ev, backend);
    if ev.backend == backend {
      if ev.Failure? {
        LaterPush(log, ev.now, cut);
        LaterPush(history, ev.now, cut);
      } else {
        LaterTwice(log, ev.now - cfg.window, cut);
      }
    }
  }

  lemma StepLogged(cfg: Config, s: Sys, ev: Event, backend: string)
    requires cfg.passive
    ensures var log := Logged(s.fails, backend);
      Logged(Step(cfg, s, ev).fails, backend) ==
        if ev.backend != backend then log
        else if ev.Failure? then log + [ev.now]
        else if ev.layers.reachable then Later(log, ev.now - cfg.window)
        else log
  {
  }

  lemma LaterPush(log: seq<int>, t: int, cut: int)
    ensures Later(log + [t], cut) == if t > cut then Later(log, cut) + [t] else Later(log, cut)
  {
    assert (log + [t])[..|log|] == log;
  }

  // Window refinement: with a clock that never goes back, a probe counts exactly
  // the failures ever recorded in its window, and with all layers up and no
  // active login probe it reports degraded exactly at the threshold.
  lemma ProbeCountsFullHistory(cfg: Config, snaps: map<string, Status>, evs: seq<Event>, backend: string,
                               layers: Layers, now: int)
    requires cfg.passive && ClockRuns(evs) && (|evs| > 0 ==> evs[|evs| - 1].now <= now)
    ensures var st := Run(cfg, snaps, evs + [Probing(backend, layers, now)]).snaps;
      var count := |Later(History(evs, backend), now - cfg.window)|;
      && backend in st && st[backend] == StateAfter(cfg, layers, count)
      && (layers == Layers(true, true, true, None) ==>
            st[backend] == if count >= cfg.threshold then Degraded else Healthy)
  {
    var evs' := evs + [Probing(backend, layers, now)];
    assert evs'[..|evs|] == evs;
    LogIsHistory(cfg, snaps, evs, backend, now - cfg.window);
  }

  // The clock matters: once a probe has run ahead, one that reads an earlier time
  // misses a failure its own window still covers.
  lemma ClockMatters(cfg: Config, snaps: map<string, Status>, backend: string, up: Layers, t: int)
    requires cfg.passive && 0 < cfg.window && up.reachable
    ensures var evs := [Failure(backend, t), Probing(backend, up, t + cfg.window)];
      && |Later(History(evs, backend), t - cfg.window)| == 1
      && |Later(Logged(Run(cfg, snaps, evs).fails, backend), t - cfg.window)| == 0
  {
    var none: seq<Event> := [];
    var e1 := [Failure(backend, t)];
    var e2 := [Failure(backend, t), Probing(backend, up, t + cfg.window)];
    assert e1[..0] == none && e2[..1] == e1;
    OneFailure(t, t);
    OneFailure(t, t - cfg.window);
    assert Logged(Run(cfg, snaps, e1).fails, backend) == [t] by {
      var empty: seq<int> := [];
      assert empty + [t] == [t];
      StepLogged(cfg, Run(cfg, snaps, none), e1[0], backend);
    }
    assert Logged(Run(cfg, snaps, e2).fails, backend) == [] by {
      StepLogged(cfg, Run(cfg, snaps, e1), e2[1], backend);
    }
    assert History(e2, backend) == History(e1, backend) == [t];
  }

  lemma OneFailure(t: int, cut: int)
    ensures Later([t], cut) == if t > cut then [t] else []
  {
    var empty: seq<int> := [];
    assert empty + [t] == [t];
    LaterPush(empty, t, cut);
  }
}
