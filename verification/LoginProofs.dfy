// What the client of a login sees, and when the order of the candidates matters.
module LoginProofs {
  import opened Prelude
  import opened Store
  import opened RouterModel
  import opened RouterProofs
  import opened AffinityModel

  // The loop goes on past this answer.
  predicate Skipped(r: HopResult) {
    r.NoResponse? || r.status == 401
  }

  predicate Accepts(r: HopResult) {
    r.Response? && Success(r.status)
  }

  // Neither: the login ends here, without success.
  predicate Blocks(r: HopResult) {
    !Skipped(r) && !Accepts(r)
  }

  ghost predicate AnySuccess(bs: seq<Backend>, answers: map<string, HopResult>) {
    exists b :: b in bs && Accepts(AnswerOf(answers, b))
  }

  ghost predicate AnyBlock(bs: seq<Backend>, answers: map<string, HopResult>) {
    exists b :: b in bs && Blocks(AnswerOf(answers, b))
  }

  predicate Refuses(r: HopResult) {
    r.Response? && r.status == 401
  }

  ghost predicate Any401(bs: seq<Backend>, answers: map<string, HopResult>) {
    exists b :: b in bs && Refuses(AnswerOf(answers, b))
  }

  // Candidate k is the first that is not skipped.
  ghost predicate First(cands: seq<Backend>, answers: map<string, HopResult>, k: nat) {
    && k < |cands| && !Skipped(AnswerOf(answers, cands[k]))
    && forall j :: 0 <= j < k ==> Skipped(AnswerOf(answers, cands[j]))
  }

  lemma {:induction false} EndFrom(cands: seq<Backend>, answers: map<string, HopResult>, i: nat, saw401: bool)
    requires i <= |cands| && (forall j :: 0 <= j < i ==> Skipped(AnswerOf(answers, cands[j])))
    requires saw401 <==> Any401(cands[..i], answers)
    ensures var end := LoginFrom(cands, answers, i, saw401);
      && (forall k: nat :: First(cands, answers, k) ==>
            end == FromBackend(cands[k].name, AnswerOf(answers, cands[k]).status))
      && ((forall k: nat :: !First(cands, answers, k)) ==>
            SeenStatus(end) == if Any401(cands, answers) then 401 else 503)
    decreases |cands| - i
  {
    if i == |cands| {
      assert cands[..i] == cands;
    } else {
      var r := AnswerOf(answers, cands[i]);
      assert cands[..i + 1] == cands[..i] + [cands[i]];
      assert cands[i] in cands && cands[i] in cands[..i + 1];
      if !Skipped(r) {
        assert First(cands, answers, i);
      } else if !Stops(cands, answers, i) {
        EndFrom(cands, answers, i + 1, saw401 || r.Response?);
      } else {
        assert cands[..i + 1] == cands;
        assert forall k: nat :: First(cands, answers, k) ==> k > i;
      }
    }
  }

  // The exact verdict, for arbitrary answers: the first candidate that is neither
  // silent nor answers 401 decides; if there is none, the client sees 401 when some
  // candidate refused, else 503.
  lemma LoginEndIs(cands: seq<Backend>, answers: map<string, HopResult>)
    ensures var end := LoginOver(cands, answers);
      && (forall k: nat :: First(cands, answers, k) ==>
            end == FromBackend(cands[k].name, AnswerOf(answers, cands[k]).status))
      && ((forall k: nat :: !First(cands, answers, k)) ==>
            SeenStatus(end) == if Any401(cands, answers) then 401 else 503)
  {
    if |cands| > 0 {
      assert cands[..0] == [];
      EndFrom(cands, answers, 0, false);
    }
  }

  lemma {:induction false} FindFirst(cands: seq<Backend>, answers: map<string, HopResult>, k: nat) returns (f: nat)
    requires k < |cands| && !Skipped(AnswerOf(answers, cands[k]))
    ensures First(cands, answers, f) && f <= k
  {
    f := k;
    if j: nat :| j < k && !Skipped(AnswerOf(answers, cands[j])) {
      f := FindFirst(cands, answers, j);
    }
  }

  // A login succeeds exactly when some candidate lets the user in and every earlier
  // one is silent or answers 401.
  lemma LoginSucceedsExactlyWhen(cands: seq<Backend>, answers: map<string, HopResult>)
    ensures Success(SeenStatus(LoginOver(cands, answers))) <==>
      exists k: nat :: First(cands, answers, k) && Accepts(AnswerOf(answers, cands[k]))
  {
    LoginEndIs(cands, answers);
    if k: nat :| First(cands, answers, k) {
      var end := LoginOver(cands, answers);
      assert end == FromBackend(cands[k].name, AnswerOf(answers, cands[k]).status);
      if Success(SeenStatus(end)) {
        assert Accepts(AnswerOf(answers, cands[k]));
      } else {
        forall j: nat | First(cands, answers, j) ensures !Accepts(AnswerOf(answers, cands[j])) {
          assert j == k by {
            assert !(j < k) && !(k < j);
          }
        }
      }
    }
  }

  /* The order of the candidates */

  ghost predicate LetsIn(cfg: Config, w: World, preferred: string, answers: map<string, HopResult>) {
    Success(SeenStatus(LoginOver(LoginCandidates(cfg, w, preferred), answers)))
  }

  lemma PreferredDecides(cfg: Config, w: World, b: Backend, answers: map<string, HopResult>)
    requires UniqueNames(cfg.backends) && b in Eligible(cfg, w) && !Skipped(AnswerOf(answers, b))
    ensures LetsIn(cfg, w, b.name, answers) <==> Accepts(AnswerOf(answers, b))
  {
    var cands := LoginCandidates(cfg, w, b.name);
    EligibleIsFilter(cfg, w, cfg.backends);
    CandidatesPermuteEligible(cfg, w, b.name);
    NamedIn(cands, b);
    assert cands[0].name == b.name && cands[0] in cands;
    NamedIn(cands, cands[0]);
    assert First(cands, answers, 0);
    LoginEndIs(cands, answers);
  }

  lemma WithoutBlock(cfg: Config, w: World, preferred: string, answers: map<string, HopResult>)
    requires UniqueNames(cfg.backends) && !AnyBlock(Eligible(cfg, w), answers)
    ensures LetsIn(cfg, w, preferred, answers) <==> AnySuccess(Eligible(cfg, w), answers)
  {
    var cands, elig := LoginCandidates(cfg, w, preferred), Eligible(cfg, w);
    assert forall b :: b in cands <==> b in elig by {
      EligibleIsFilter(cfg, w, cfg.backends);
      CandidatesPermuteEligible(cfg, w, preferred);
    }
    AcceptedWithoutBlock(cands, answers);
  }

  lemma AcceptedWithoutBlock(cands: seq<Backend>, answers: map<string, HopResult>)
    requires !AnyBlock(cands, answers)
    ensures Success(SeenStatus(LoginOver(cands, answers))) <==> AnySuccess(cands, answers)
  {
    LoginSucceedsExactlyWhen(cands, answers);
    if b :| b in cands && Accepts(AnswerOf(answers, b)) {
      var k: nat :| k < |cands| && cands[k] == b;
      var f := FindFirst(cands, answers, k);
      assert cands[f] in cands && !Blocks(AnswerOf(answers, cands[f]));
    }
  }

  lemma WithoutSuccess(cfg: Config, w: World, preferred: string, answers: map<string, HopResult>)
    requires UniqueNames(cfg.backends) && !AnySuccess(Eligible(cfg, w), answers)
    ensures !LetsIn(cfg, w, preferred, answers)
  {
    var cands := LoginCandidates(cfg, w, preferred);
    EligibleIsFilter(cfg, w, cfg.backends);
    CandidatesPermuteEligible(cfg, w, preferred);
    LoginSucceedsExactlyWhen(cands, answers);
    forall k: nat | First(cands, answers, k) ensures !Accepts(AnswerOf(answers, cands[k])) {
      assert cands[k] in Eligible(cfg, w);
    }
  }

  // Whether the login succeeds does not depend on the preferred backend, exactly
  // unless one eligible backend lets the user in and another answers with something
  // that is neither a success nor a 401, such as 403 or 500.
  lemma PreferenceMattersExactlyWhen(cfg: Config, w: World, answers: map<string, HopResult>)
    requires UniqueNames(cfg.backends)
    ensures (forall p, q :: LetsIn(cfg, w, p, answers) <==> LetsIn(cfg, w, q, answers)) <==>
      !(AnySuccess(Eligible(cfg, w), answers) && AnyBlock(Eligible(cfg, w), answers))
  {
    var elig := Eligible(cfg, w);
    if AnySuccess(elig, answers) && AnyBlock(elig, answers) {
      var s :| s in elig && Accepts(AnswerOf(answers, s));
      var b :| b in elig && Blocks(AnswerOf(answers, b));
      PreferredDecides(cfg, w, s, answers);
      PreferredDecides(cfg, w, b, answers);
      assert LetsIn(cfg, w, s.name, answers) && !LetsIn(cfg, w, b.name, answers);
    } else if AnySuccess(elig, answers) {
      forall p ensures LetsIn(cfg, w, p, answers) {
        WithoutBlock(cfg, w, p, answers);
      }
    } else {
      forall p ensures !LetsIn(cfg, w, p, answers) {
        WithoutSuccess(cfg, w, p, answers);
      }
    }
  }

  // When no eligible backend blocks, the client sees a success exactly when some
  // eligible backend lets the user in, else a 401 exactly when some backend refused,
  // else a 503, whatever the order.
  lemma LoginVerdict(cfg: Config, w: World, preferred: string, answers: map<string, HopResult>)
    requires UniqueNames(cfg.backends) && !AnyBlock(Eligible(cfg, w), answers)
    ensures var elig, st := Eligible(cfg, w), SeenStatus(LoginOver(LoginCandidates(cfg, w, preferred), answers));
      && (Success(st) <==> AnySuccess(elig, answers))
      && (st == 401 <==> !AnySuccess(elig, answers) && Any401(elig, answers))
      && (st == 503 <==> !AnySuccess(elig, answers) && !Any401(elig, answers))
  {
    var cands, elig := LoginCandidates(cfg, w, preferred), Eligible(cfg, w);
    WithoutBlock(cfg, w, preferred, answers);
    CandidatesPermuteEligible(cfg, w, preferred);
    EligibleIsFilter(cfg, w, cfg.backends);
    assert forall b :: b in cands <==> b in elig;
    LoginEndIs(cands, answers);
    assert Any401(cands, answers) <==> Any401(elig, answers);
    if !AnySuccess(elig, answers) {
      assert forall b :: b in elig ==> Skipped(AnswerOf(answers, b));
      forall k: nat | k < |cands| ensures Skipped(AnswerOf(answers, cands[k])) {
        assert cands[k] in elig;
      }
    }
  }

  // Two backends, one broken and one that would let the user in: the order decides.
  lemma OrderMatters()
    ensures var a, b := Backend("a", false), Backend("b", false);
      var answers := map["a" := Response(500, None), "b" := Response(200, None)];
      SeenStatus(LoginOver([a, b], answers)) == 500 && SeenStatus(LoginOver([b, a], answers)) == 200
  {
    var a, b := Backend("a", false), Backend("b", false);
    var answers := map["a" := Response(500, None), "b" := Response(200, None)];
    assert First([a, b], answers, 0) && First([b, a], answers, 0);
    LoginEndIs([a, b], answers);
    LoginEndIs([b, a], answers);
  }

  /* Where the hops go, and with which token */

  // The hops go to a beginning of the list of candidates.
  lemma {:induction false} HopsAreCandidates(cands: seq<Backend>, answers: map<string, HopResult>, i: nat,
                                             token: string)
    requires i <= |cands|
    ensures var hops := LoginHops(cands, answers, i, token);
      |hops| <= |cands| - i && forall j :: 0 <= j < |hops| ==> hops[j] == Hop(cands[i + j], token)
    decreases |cands| - i
  {
    if i < |cands| && !Stops(cands, answers, i) {
      HopsAreCandidates(cands, answers, i + 1, token);
    }
  }

  lemma HopsAreEligible(cfg: Config, w: World, preferred: string, answers: map<string, HopResult>, token: string)
    requires UniqueNames(cfg.backends)
    ensures var hops := LoginHops(LoginCandidates(cfg, w, preferred), answers, 0, token);
      && (forall i, j :: 0 <= i < j < |hops| ==> hops[i].to.name != hops[j].to.name)
      && (forall h :: h in hops ==> h.to in cfg.backends && Takes(cfg, w, h.to.name))
  {
    CandidatesPermuteEligible(cfg, w, preferred);
    HopsAreCandidates(LoginCandidates(cfg, w, preferred), answers, 0, token);
  }

  // The hops of a request that logs in.
  ghost function HopsOf(cfg: Config, w: World, db: Db, req: Request, faults: Faults, now: int, hint: string,
                        answers: map<string, HopResult>): seq<Hop>
  {
    var route := Arrive(cfg, w, db, req, faults, now).1;
    if route.TryLogin? && route.decision.backend.Some? then
      LoginHops(LoginCandidates(cfg, w, LoginPreferred(route.decision, hint)), answers, 0, req.id.token)
    else []
  }

  ghost predicate SentElsewhere(hops: seq<Hop>, token: string, name: string) {
    exists i :: 0 <= i < |hops| && hops[i].token == token && hops[i].to.name != name
  }

  // Some eligible backend is another one.
  ghost predicate AnotherTakes(cfg: Config, w: World, name: string) {
    exists b :: b in cfg.backends && Takes(cfg, w, b.name) && b.name != name
  }

  lemma NamedOnce(cands: seq<Backend>, name: string)
    requires UniqueNames(cands) && |cands| > 1 && cands[0].name == name
    ensures cands[1].name != name
  {
  }

  // The hops reach a backend of another name exactly when one is a candidate and the
  // first candidate, if it has this name, is skipped.
  lemma HopsLeave(cands: seq<Backend>, answers: map<string, HopResult>, token: string, name: string)
    requires UniqueNames(cands)
    ensures SentElsewhere(LoginHops(cands, answers, 0, token), token, name) <==>
      && (exists b :: b in cands && b.name != name)
      && (cands[0].name == name ==> Skipped(AnswerOf(answers, cands[0])))
  {
    var hops := LoginHops(cands, answers, 0, token);
    HopsAreCandidates(cands, answers, 0, token);
    if b :| b in cands && b.name != name {
      assert hops[0] == Hop(cands[0], token);
      if cands[0].name == name {
        NamedOnce(cands, name);
        if Skipped(AnswerOf(answers, cands[0])) {
          assert hops[1] == Hop(cands[1], token);
        }
      }
    } else {
      assert forall i :: 0 <= i < |hops| ==> hops[i].to in cands;
    }
  }

  lemma LiveHopsLeave(cfg: Config, w: World, name: string, answers: map<string, HopResult>, token: string)
    requires UniqueNames(cfg.backends) && LastNamed(cfg.backends, name).Some?
    ensures SentElsewhere(LoginHops(LoginCandidates(cfg, w, name), answers, 0, token), token, name) <==>
      && AnotherTakes(cfg, w, name)
      && (Takes(cfg, w, name) ==> Skipped(AnswerOf(answers, LastNamed(cfg.backends, name).value)))
  {
    var cands := LoginCandidates(cfg, w, name);
    CandidatesPermuteEligible(cfg, w, name);
    HopsLeave(cands, answers, token, name);
    assert |cands| > 0 ==> cands[0] in cands;
    if |cands| > 0 && cands[0].name == name {
      NamedIn(cfg.backends, cands[0]);
    }
  }

  // For a live token bound to a: a login sends it to another backend exactly when the
  // request is let through to the login at all, another backend is eligible, and a is
  // not eligible, gives no answer, or answers 401.
  lemma LoginSendsTokenElsewhere(cfg: Config, w: World, db: Db, req: Request, faults: Faults, now: int, hint: string,
                                 answers: map<string, HopResult>)
    requires UniqueNames(cfg.backends) && IsLoginPath(req.verb, req.path) && !IsStatusPath(req.path)
    requires req.id.token != "" && req.id.token in db.tokens
    requires !Expired(db.tokens[req.id.token].seen, cfg.ttl.token, now)
    ensures var a := db.tokens[req.id.token].backend;
      SentElsewhere(HopsOf(cfg, w, db, req, faults, now, hint, answers), req.id.token, a) <==>
        && !faults.token && (req.id.deviceID == "" || !faults.device)
        && LastNamed(cfg.backends, a).Some? && !Disabled(cfg, w, a)
        && (State(w, a).Unhealthy? ==> PolicyFor(cfg, GrayWith(cfg, db, req, now)).PinUnhealthy?)
        && AnotherTakes(cfg, w, a)
        && (Takes(cfg, w, a) ==> Skipped(AnswerOf(answers, LastNamed(cfg.backends, a).value)))
  {
    var a := db.tokens[req.id.token].backend;
    var hops := HopsOf(cfg, w, db, req, faults, now, hint, answers);
    var route := Arrive(cfg, w, db, req, faults, now).1;
    LiveTokenDecides(cfg, w, db, req, faults, now);
    if route.TryLogin? {
      assert route.decision.backend == LastNamed(cfg.backends, a) && LoginPreferred(route.decision, hint) == a;
      LiveHopsLeave(cfg, w, a, answers, req.id.token);
    } else {
      assert hops == [];
    }
  }
}
