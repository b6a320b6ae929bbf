// Operator switches: the configured disabled flags plus a runtime overlay that is
// written to the store first and read back at start.
module Flags {
  import opened Prelude
  import opened RouterModel

  // The backend_flags table.
  class FlagTable {
    var rows: map<string, bool>

    constructor ()
      ensures rows == map[]
    {
      rows := map[];
    }

    method SetBackendDisabled(name: string, disabled: bool)
      modifies this
      ensures rows == Upserted(old(rows), name, disabled)
    {
      if name != "" {
        rows := rows[name := disabled];
      }
    }

    method ClearBackendFlag(name: string)
      modifies this
      ensures rows == Cleared(old(rows), name)
    {
      if name != "" {
        rows := rows - {name};
      }
    }
  }

  function Upserted(rows: map<string, bool>, name: string, disabled: bool): map<string, bool> {
    if name == "" then rows else rows[name := disabled]
  }

  function Cleared(rows: map<string, bool>, name: string): map<string, bool> {
    if name == "" then rows else rows - {name}
  }

  predicate On(flags: map<string, bool>, name: string) {
    name in flags && flags[name]
  }

  /* The overlay as it runs */

  class Flags {
    var yaml: map<string, bool>
    var runtime: map<string, bool>

    // newFlags
    constructor (backends: seq<Backend>)
      ensures runtime == map[] && Follows(backends)
    {
      yaml := map[];
      runtime := map[];
      new;
      for i := 0 to |backends|
        invariant runtime == map[]
        invariant Follows(backends[..i])
      {
        assert backends[..i + 1][..i] == backends[..i];
        yaml := yaml[backends[i].name := backends[i].disabled];
      }
      assert backends[..|backends|] == backends;
    }

    // yaml holds the last configured switch of each name.
    ghost predicate Follows(backends: seq<Backend>)
      reads this
    {
      forall n :: On(yaml, n) == (LastNamed(backends, n).Some? && LastNamed(backends, n).value.disabled)
    }

    // rows is None when the table could not be read.
    method Load(rows: Option<map<string, bool>>)
      modifies this`runtime
      ensures runtime == old(runtime) + Loaded(rows)
    {
      if rows.None? {
        assert runtime + map[] == runtime;
        return;
      }
      var rest := rows.value.Keys;
      while rest != {}
        invariant rest <= rows.value.Keys
        invariant runtime == old(runtime) + Loaded(Some(map n | n in rows.value && n !in rest :: rows.value[n]))
        decreases rest
      {
        var n :| n in rest;
        if rows.value[n] {
          runtime := runtime[n := true];
        }
        rest := rest - {n};
      }
      assert (map n | n in rows.value && n !in rest :: rows.value[n]) == rows.value;
    }

    predicate Disabled(name: string)
      reads this
    {
      (name in yaml && yaml[name]) || (name in runtime && runtime[name])
    }

    // ok is false when the table refuses the write; then nothing changes.
    method SetRuntime(table: FlagTable, name: string, disabled: bool, ok: bool) returns (done: bool)
      modifies this`runtime, table
      ensures done == ok
      ensures Sys(table.rows, runtime) == Step(old(Sys(table.rows, runtime)), Set(name, disabled, ok))
    {
      if !ok {
        return false;
      }
      if disabled {
        table.SetBackendDisabled(name, true);
        runtime := runtime[name := true];
      } else {
        table.ClearBackendFlag(name);
        runtime := runtime - {name};
      }
      return true;
    }
  }

  function Loaded(rows: Option<map<string, bool>>): map<string, bool> {
    if rows.None? then map[] else map n | n in rows.value && rows.value[n] :: true
  }

  /* Runs */

  datatype Sys = Sys(rows: map<string, bool>, runtime: map<string, bool>)

  // Restart: the table survives, the overlay is read back if the table answers.
  datatype Event = Set(name: string, disabled: bool, ok: bool) | Restart(ok: bool)

  function Step(s: Sys, ev: Event): Sys {
    match ev
    case Set(name, disabled, ok) =>
      if !ok then s
      else if disabled then Sys(Upserted(s.rows, name, true), s.runtime[name := true])
      else Sys(Cleared(s.rows, name), s.runtime - {name})
    case Restart(ok) => Sys(s.rows, Loaded(if ok then Some(s.rows) else None))
  }

  function Run(evs: seq<Event>): Sys {
    if |evs| == 0 then Sys(map[], map[]) else Step(Run(evs[..|evs| - 1]), evs[|evs| - 1])
  }

  // What the operator last asked of a backend, successfully.
  function Wanted(evs: seq<Event>, name: string): bool {
    if |evs| == 0 then false
    else
      var ev := evs[|evs| - 1];
      if ev.Set? && ev.ok && ev.name == name then ev.disabled else Wanted(evs[..|evs| - 1], name)
  }

  // A restart that could not read the table, and no successful switch of the
  // backend or readable restart since.
  function Blind(evs: seq<Event>, name: string): bool {
    if |evs| == 0 then false
    else
      var ev := evs[|evs| - 1];
      if ev.Restart? then !ev.ok
      else if ev.ok && ev.name == name then false
      else Blind(evs[..|evs| - 1], name)
  }

  // Over every run of switches and restarts, the overlay disables a backend exactly
  // when that was the operator's last successful wish and the last restart could
  // read it back.
  lemma {:induction false} OverlayIsLastWish(evs: seq<Event>, name: string)
    requires name != ""
    ensures On(Run(evs).rows, name) == Wanted(evs, name)
    ensures On(Run(evs).runtime, name) == (Wanted(evs, name) && !Blind(evs, name))
  {
    if |evs| != 0 {
      OverlayIsLastWish(evs[..|evs| - 1], name);
    }
  }
}
