/** Event classification (packages/api/map_events.py): a first-match rule table, and the SQL predicate
    `_class_sql` compiles it to. */
module EventClasses {
  import opened Common

  /** A payload's error type; an empty one counts as none. */
  type ErrorType = s: string | s != "" witness "e"

  datatype Rule = Rule(code: string, etype: Option<ErrorType>, cls: string)

  const RAISED := "ROBOT.ERROR_RAISED"
  const MIRRORED: set<string> := {"edgeBlocked", "nodeSkipped"}

  /** A row of the attributed CTE: its code and its error type, "" for none. */
  datatype Event = Event(code: string, ekey: string)

  predicate IsMirrored(e: Event) {
    e.code == RAISED && e.ekey in MIRRORED
  }

  predicate Matches(r: Rule, e: Event) {
    r.code == e.code && (r.etype.None? || r.etype.value == e.ekey)
  }

  /** The first rule that matches. */
  function FirstMatch(rules: seq<Rule>, e: Event): (n: Option<nat>)
    ensures n.Some? ==> n.value < |rules| && Matches(rules[n.value], e)
                        && forall i | 0 <= i < n.value :: !Matches(rules[i], e)
    ensures n.None? ==> forall i | 0 <= i < |rules| :: !Matches(rules[i], e)
  {
    if rules == [] then None
    else
      var f := FirstMatch(Front(rules), e);
      assert forall i | 0 <= i < |rules| - 1 :: Front(rules)[i] == rules[i];
      if f.Some? then f
      else if Matches(Last(rules), e) then Some(|rules| - 1) else None
  }

  /** event_class: None outside the universe. */
  function EventClass(rules: seq<Rule>, e: Event): Option<string> {
    if IsMirrored(e) then None
    else
      var n := FirstMatch(rules, e);
      if n.None? then None else Some(rules[n.value].cls)
  }

  // --- the compiled predicate ------------------------------------------------------------------------

  datatype Part =
    | IsTyped(code: string, etype: string)
    | IsOther(code: string, etypes: seq<string>)
    | IsCode(code: string)
  {
    predicate Holds(e: Event) {
      match this
      case IsTyped(c, t) => e.code == c && e.ekey == t
      case IsOther(c, ts) => e.code == c && !(e.ekey in ts)
      case IsCode(c) => e.code == c
    }
  }

  /** The disjunction of the parts. */
  ghost predicate Sql(parts: seq<Part>, e: Event) {
    exists i | 0 <= i < |parts| :: parts[i].Holds(e)
  }

  lemma SqlAppend(parts: seq<Part>, p: Part, e: Event)
    ensures Sql(parts + [p], e) <==> Sql(parts, e) || p.Holds(e)
  {
    if Sql(parts, e) {
      var i :| 0 <= i < |parts| && parts[i].Holds(e);
      assert (parts + [p])[i].Holds(e);
    }
    if p.Holds(e) {
      assert (parts + [p])[|parts|].Holds(e);
    }
  }

  /** Some earlier rule of the code names the error type. */
  ghost predicate Named(rules: seq<Rule>, n: nat, code: string, t: string) {
    exists i | 0 <= i < n <= |rules| :: rules[i].code == code && rules[i].etype == Some(t)
  }

  /** What the n-th rule contributes, said about the table alone: its own type, or for a catch-all every
      type no earlier rule of the code names. */
  ghost predicate Claims(rules: seq<Rule>, n: nat, e: Event)
    requires n < |rules|
  {
    Matches(rules[n], e) && (rules[n].etype.Some? || !Named(rules, n, e.code, e.ekey))
  }

  ghost predicate CollectsType(rules: seq<Rule>, n: nat, earlier: map<string, seq<string>>, c: string, t: string) {
    (c in earlier && t in earlier[c]) <==> Named(rules, n, c, t)
  }

  ghost predicate Collects(rules: seq<Rule>, n: nat, earlier: map<string, seq<string>>) {
    forall c, t: string | t != "" :: CollectsType(rules, n, earlier, c, t)
  }

  lemma NamedStep(rules: seq<Rule>, n: nat, c: string, t: string)
    requires n < |rules|
    ensures Named(rules, n + 1, c, t) <==> Named(rules, n, c, t) || (rules[n].code == c && rules[n].etype == Some(t))
  {
    if Named(rules, n, c, t) {
      var i :| 0 <= i < n && rules[i].code == c && rules[i].etype == Some(t);
      assert rules[i].code == c;
    }
    if rules[n].code == c && rules[n].etype == Some(t) {
      assert rules[n].etype == Some(t);
    }
  }

  lemma CollectsTypeStep(rules: seq<Rule>, n: nat, earlier: map<string, seq<string>>, next: map<string, seq<string>>,
                         c: string, t: string)
    requires n < |rules| && CollectsType(rules, n, earlier, c, t)
    requires rules[n].etype.None? ==> next == earlier
    requires rules[n].etype.Some? ==>
               next == earlier[rules[n].code := (if rules[n].code in earlier then earlier[rules[n].code] else [])
                                                + [rules[n].etype.value]]
    ensures CollectsType(rules, n + 1, next, c, t)
  {
    NamedStep(rules, n, c, t);
  }

  lemma CollectsStep(rules: seq<Rule>, n: nat, earlier: map<string, seq<string>>, next: map<string, seq<string>>)
    requires n < |rules| && Collects(rules, n, earlier)
    requires rules[n].etype.None? ==> next == earlier
    requires rules[n].etype.Some? ==>
               next == earlier[rules[n].code := (if rules[n].code in earlier then earlier[rules[n].code] else [])
                                                + [rules[n].etype.value]]
    ensures Collects(rules, n + 1, next)
  {
    var m := n + 1;
    forall c, t: string | t != "" ensures CollectsType(rules, m, next, c, t) {
      CollectsTypeStep(rules, n, earlier, next, c, t);
    }
  }

  /** _class_sql: the parts of one class, and per code the types of the rules passed so far. */
  method ClassSql(rules: seq<Rule>, cls: string) returns (parts: seq<Part>)
    ensures forall e :: Sql(parts, e) <==> exists n | 0 <= n < |rules| :: rules[n].cls == cls && Claims(rules, n, e)
  {
    parts := [];
    var earlier: map<string, seq<string>> := map[];
    for n := 0 to |rules|
      invariant forall c | c in earlier :: "" !in earlier[c]
      invariant Collects(rules, n, earlier)
      invariant forall e :: Sql(parts, e) <==> ClaimedBefore(rules, n, cls, e)
    {
      var r := rules[n];
      if r.cls == cls {
        var part := if r.etype.Some? then IsTyped(r.code, r.etype.value)
                    else if r.code in earlier && earlier[r.code] != [] then IsOther(r.code, earlier[r.code])
                    else IsCode(r.code);
        forall e ensures part.Holds(e) <==> Claims(rules, n, e) {
          PartIsClaim(rules, n, earlier, e);
        }
        forall e ensures Sql(parts + [part], e) <==> ClaimedBefore(rules, n + 1, cls, e) {
          SqlAppend(parts, part, e);
          ClaimedStep(rules, n, cls, e);
        }
        parts := parts + [part];
      } else {
        forall e ensures Sql(parts, e) <==> ClaimedBefore(rules, n + 1, cls, e) {
          ClaimedStep(rules, n, cls, e);
        }
      }
      ghost var before := earlier;
      if r.etype.Some? {
        earlier := earlier[r.code := (if r.code in earlier then earlier[r.code] else []) + [r.etype.value]];
      }
      CollectsStep(rules, n, before, earlier);
    }
  }

  ghost predicate ClaimedBefore(rules: seq<Rule>, n: nat, cls: string, e: Event)
    requires n <= |rules|
  {
    exists i | 0 <= i < n :: rules[i].cls == cls && Claims(rules, i, e)
  }

  lemma ClaimedStep(rules: seq<Rule>, n: nat, cls: string, e: Event)
    requires n < |rules|
    ensures ClaimedBefore(rules, n + 1, cls, e)
       <==> ClaimedBefore(rules, n, cls, e) || (rules[n].cls == cls && Claims(rules, n, e))
  {
    if ClaimedBefore(rules, n, cls, e) {
      var i :| 0 <= i < n && rules[i].cls == cls && Claims(rules, i, e);
      assert rules[i].cls == cls && Claims(rules, i, e);
    }
  }

  lemma PartIsClaim(rules: seq<Rule>, n: nat, earlier: map<string, seq<string>>, e: Event)
    requires n < |rules| && Collects(rules, n, earlier) && forall c | c in earlier :: "" !in earlier[c]
    ensures var r := rules[n];
            var part := if r.etype.Some? then IsTyped(r.code, r.etype.value)
                        else if r.code in earlier && earlier[r.code] != [] then IsOther(r.code, earlier[r.code])
                        else IsCode(r.code);
            part.Holds(e) <==> Claims(rules, n, e)
  {
    if e.ekey == "" {
      assert !Named(rules, n, e.code, e.ekey);
    } else {
      assert CollectsType(rules, n, earlier, e.code, e.ekey);
    }
  }

  // --- when the two agree ------------------------------------------------------------------------------

  /** A type no rule of the table names. */
  function FreshType(rules: seq<Rule>): (t: string)
    ensures t != "" && t !in MIRRORED && forall i | 0 <= i < |rules| :: rules[i].etype != Some(t)
  {
    var t := LongerThanAll(rules);
    assert |"edgeBlocked"| == 11 && |"nodeSkipped"| == 11;
    t
  }

  function LongerThanAll(rules: seq<Rule>): (t: string)
    ensures |t| > 11 && forall i | 0 <= i < |rules| && rules[i].etype.Some? :: |rules[i].etype.value| < |t|
  {
    if rules == [] then seq(12, i => '*')
    else
      var t := LongerThanAll(Front(rules));
      var l := if Last(rules).etype.Some? then Last(rules).etype.value else "";
      assert forall i | 0 <= i < |rules| - 1 :: Front(rules)[i] == rules[i];
      t + l + "*"
  }

  /** The event that shows what the n-th rule is about. */
  function Probe(rules: seq<Rule>, n: nat): Event
    requires n < |rules|
  {
    Event(rules[n].code, if rules[n].etype.Some? then rules[n].etype.value else FreshType(rules))
  }

  /** The first rule that decides what the n-th rule is about has the same class: no rule is shadowed by
      one of another class. (A rule about mirrored events decides nothing.) */
  ghost predicate Consistent(rules: seq<Rule>) {
    forall n | 0 <= n < |rules| && !IsMirrored(Probe(rules, n)) :: rules[Decider(rules, n)].cls == rules[n].cls
  }

  predicate Covers(r: Rule, s: Rule) {
    r.code == s.code && (r.etype.None? || r.etype == s.etype)
  }

  /** The first rule that covers everything the n-th rule is about. */
  function Decider(rules: seq<Rule>, n: nat): (i: nat)
    requires n < |rules|
    ensures i <= n && Covers(rules[i], rules[n]) && forall j | 0 <= j < i :: !Covers(rules[j], rules[n])
  {
    DeciderFrom(rules, n, 0)
  }

  function DeciderFrom(rules: seq<Rule>, n: nat, k: nat): (i: nat)
    requires k <= n < |rules| && forall j | 0 <= j < k :: !Covers(rules[j], rules[n])
    ensures i <= n && Covers(rules[i], rules[n]) && forall j | 0 <= j < i :: !Covers(rules[j], rules[n])
    decreases n - k
  {
    if Covers(rules[k], rules[n]) then k else DeciderFrom(rules, n, k + 1)
  }

  /** Every matched event is claimed by its first rule. */
  lemma FirstMatchClaims(rules: seq<Rule>, e: Event)
    requires FirstMatch(rules, e).Some?
    ensures Claims(rules, FirstMatch(rules, e).value, e)
  {
    var n := FirstMatch(rules, e).value;
    forall i | 0 <= i < n ensures !(rules[i].code == e.code && rules[i].etype == Some(e.ekey)) {
      assert !Matches(rules[i], e);
    }
  }

  /** The first rule matching a claimed event decides for the claiming rule. */
  lemma ClaimDecided(rules: seq<Rule>, n: nat, e: Event)
    requires n < |rules| && Claims(rules, n, e)
    ensures FirstMatch(rules, e) == Some(Decider(rules, n))
  {
    var d := Decider(rules, n);
    assert Matches(rules[d], e);
    forall j | 0 <= j < d ensures !Matches(rules[j], e) {
      assert !Covers(rules[j], rules[n]);
    }
  }

  /** The compiled predicate of a class. */
  ghost predicate Compiled(rules: seq<Rule>, cls: string, e: Event) {
    exists n | 0 <= n < |rules| :: rules[n].cls == cls && Claims(rules, n, e)
  }

  ghost predicate KeepsMeaning(rules: seq<Rule>) {
    forall cls, e | !IsMirrored(e) :: Compiled(rules, cls, e) <==> EventClass(rules, e) == Some(cls)
  }

  lemma ConsistentKeepsMeaning(rules: seq<Rule>)
    requires Consistent(rules)
    ensures KeepsMeaning(rules)
  {
    forall cls, e | !IsMirrored(e) ensures Compiled(rules, cls, e) <==> EventClass(rules, e) == Some(cls) {
      if Compiled(rules, cls, e) {
        var n :| 0 <= n < |rules| && rules[n].cls == cls && Claims(rules, n, e);
        ClaimDecided(rules, n, e);
        assert rules[n].etype.Some? ==> Probe(rules, n) == e;
      }
      if EventClass(rules, e) == Some(cls) {
        FirstMatchClaims(rules, e);
      }
    }
  }

  lemma ProbeIsClaimed(rules: seq<Rule>, n: nat)
    requires n < |rules|
    ensures Claims(rules, n, Probe(rules, n))
  {
    if rules[n].etype.None? {
      assert forall i | 0 <= i < |rules| :: rules[i].etype != Some(FreshType(rules));
    }
  }

  /** The SQL of every class holds exactly for the events of that class if and only if no rule is shadowed
      by a rule of another class. */
  lemma CompiledIffConsistent(rules: seq<Rule>)
    ensures KeepsMeaning(rules) <==> Consistent(rules)
  {
    if Consistent(rules) {
      ConsistentKeepsMeaning(rules);
    }
    if KeepsMeaning(rules) {
      forall n | 0 <= n < |rules| && !IsMirrored(Probe(rules, n)) ensures rules[Decider(rules, n)].cls == rules[n].cls {
        var e := Probe(rules, n);
        ProbeIsClaimed(rules, n);
        assert Compiled(rules, rules[n].cls, e);
        ClaimDecided(rules, n, e);
      }
    }
  }

  /** A table with two rules for one error type: the second class's filter takes the first one's events. */
  lemma ShadowedRuleCountsTwice()
    ensures var rules := [Rule("C", Some("t"), "a"), Rule("C", Some("t"), "b")];
            && !Consistent(rules)
            && Compiled(rules, "a", Event("C", "t")) && Compiled(rules, "b", Event("C", "t"))
  {
    var rules := [Rule("C", Some("t"), "a"), Rule("C", Some("t"), "b")];
    assert Covers(rules[0], rules[1]) && Decider(rules, 1) == 0;
    assert Claims(rules, 0, Event("C", "t")) && Claims(rules, 1, Event("C", "t"));
  }

  /** Of a consistent table the class filters are disjoint and cover the universe. */
  lemma FiltersPartition(rules: seq<Rule>, e: Event)
    requires Consistent(rules) && !IsMirrored(e)
    ensures forall c, d | Compiled(rules, c, e) && Compiled(rules, d, e) :: c == d
    ensures (exists c :: Compiled(rules, c, e)) <==> FirstMatch(rules, e).Some?
  {
    ConsistentKeepsMeaning(rules);
    if FirstMatch(rules, e).Some? {
      assert Compiled(rules, rules[FirstMatch(rules, e).value].cls, e);
    }
  }

  /** Typed rules first, each type once, then at most one catch-all per code. */
  ghost predicate Layered(rules: seq<Rule>) {
    forall i, j | 0 <= i < j < |rules| && rules[i].code == rules[j].code ::
      rules[i].etype.Some? && rules[i].etype != rules[j].etype
  }

  lemma LayeredIsConsistent(rules: seq<Rule>)
    requires Layered(rules)
    ensures Consistent(rules)
  {
    forall n | 0 <= n < |rules| ensures rules[Decider(rules, n)].cls == rules[n].cls {
      assert Decider(rules, n) == n;
    }
  }

  const CLASS_RULES: seq<Rule> := [
    Rule(RAISED, Some("safetyReflexError"), "safety_reflex"),
    Rule("MISSION.EDGE_BLOCKED", None, "blocked"),
    Rule("NAV.GOAL_BLOCKED", None, "blocked"),
    Rule("MISSION.NODE_SKIPPED", None, "skipped"),
    Rule("ROBOT.HEARTBEAT_LOST", None, "link_loss"),
    Rule("NAV.RECOVERY_ENTERED", None, "recovery"),
    Rule(RAISED, None, "error"),
    Rule("MISSION.NODE_FAILED", None, "error"),
    Rule("ROBOT.OFFLINE", None, "other"),
    Rule("MISSION.REROUTED", None, "other"),
    Rule("MISSION.CANCEL_REQUESTED", None, "other"),
    Rule("TELEOP.SESSION_STARTED", None, "other")]

  /** The shipped table keeps its meaning. */
  lemma ShippedRulesKeepMeaning()
    ensures KeepsMeaning(CLASS_RULES)
  {
    LayeredIsConsistent(CLASS_RULES);
    ConsistentKeepsMeaning(CLASS_RULES);
  }

  /** The rule at n decides for an event that it matches and no rule before it does. */
  lemma FirstMatchAt(rules: seq<Rule>, e: Event, n: nat)
    requires n < |rules| && Matches(rules[n], e) && forall i | 0 <= i < n :: !Matches(rules[i], e)
    ensures FirstMatch(rules, e) == Some(n)
  {
  }

  /** Raised errors: those that mirror an event of their own are outside the universe, a safety reflex is one, and every
      other is an error. */
  lemma RaisedClasses(ekey: string)
    ensures EventClass(CLASS_RULES, Event("ROBOT.ERROR_RAISED", ekey)) ==
            if ekey == "edgeBlocked" || ekey == "nodeSkipped" then None
            else if ekey == "safetyReflexError" then Some("safety_reflex") else Some("error")
  {
    var e := Event(RAISED, ekey);
    if ekey == "safetyReflexError" {
      FirstMatchAt(CLASS_RULES, e, 0);
    } else {
      assert CLASS_RULES[6] == Rule(RAISED, None, "error");
      forall i | 0 <= i < 6 ensures !Matches(CLASS_RULES[i], e) {
        assert i == 0 || CLASS_RULES[i].code != RAISED;
      }
      FirstMatchAt(CLASS_RULES, e, 6);
    }
  }
}

/** Episodes: of the raise / clear and enter / exit events of a robot only the first raise of an open
    stretch counts (the `lag` filter of the attributed CTE). */
module Episodes {
  import opened Common

  /** The partition: robot, family and error type. */
  datatype Lane = Lane(robot: string, family: string, ekey: string)
  datatype Kind = Opener | Closer
  datatype Row = Row(lane: Lane, kind: Kind)

  /** lag(): the previous row of the same lane among the rows fetched from index `from` on. */
  function Previous(rows: seq<Row>, from: nat, n: nat): (p: Option<nat>)
    requires from <= n < |rows|
    ensures p.Some? ==> from <= p.value < n && rows[p.value].lane == rows[n].lane
                        && forall i | p.value < i < n :: rows[i].lane != rows[n].lane
    ensures p.None? ==> forall i | from <= i < n :: rows[i].lane != rows[n].lane
  {
    PreviousFrom(rows, from, n, n)
  }

  function PreviousFrom(rows: seq<Row>, from: nat, n: nat, k: nat): (p: Option<nat>)
    requires from <= k <= n < |rows| && forall i | k <= i < n :: rows[i].lane != rows[n].lane
    ensures p.Some? ==> from <= p.value < n && rows[p.value].lane == rows[n].lane
                        && forall i | p.value < i < n :: rows[i].lane != rows[n].lane
    ensures p.None? ==> forall i | from <= i < n :: rows[i].lane != rows[n].lane
    decreases k
  {
    if k == from then None
    else if rows[k - 1].lane == rows[n].lane then Some(k - 1)
    else PreviousFrom(rows, from, n, k - 1)
  }

  /** The filter: an opener whose previous row is missing or not an opener. */
  predicate Kept(rows: seq<Row>, from: nat, n: nat)
    requires from <= n < |rows|
  {
    rows[n].kind == Opener
    && var p := Previous(rows, from, n);
       p.None? || rows[p.value].kind != Opener
  }

  /** The automaton of all lanes: which lanes are open after some rows. */
  function OpenLanes(rows: seq<Row>): set<Lane> {
    if rows == [] then {}
    else if Last(rows).kind == Opener then OpenLanes(Front(rows)) + {Last(rows).lane}
    else OpenLanes(Front(rows)) - {Last(rows).lane}
  }

  lemma {:induction false} OpenMeansLastOpened(rows: seq<Row>, from: nat, n: nat, k: nat)
    requires from <= k <= n < |rows| && forall i | k <= i < n :: rows[i].lane != rows[n].lane
    ensures var p := PreviousFrom(rows, from, n, k);
            rows[n].lane in OpenLanes(rows[from..k]) <==> p.Some? && rows[p.value].kind == Opener
    decreases k
  {
    if k > from {
      assert Front(rows[from..k]) == rows[from..k - 1] && Last(rows[from..k]) == rows[k - 1];
      if rows[k - 1].lane != rows[n].lane {
        OpenMeansLastOpened(rows, from, n, k - 1);
      }
    }
  }

  /** A row is kept exactly when it takes its lane from closed to open. */
  lemma KeptMeansOpening(rows: seq<Row>, from: nat, n: nat)
    requires from <= n < |rows|
    ensures Kept(rows, from, n) <==>
              rows[n].lane !in OpenLanes(rows[from..n]) && rows[n].lane in OpenLanes(rows[from..n + 1])
  {
    OpenMeansLastOpened(rows, from, n, n);
    assert Front(rows[from..n + 1]) == rows[from..n] && Last(rows[from..n + 1]) == rows[n];
  }

  /** Fetching only a lookback changes the verdict on a row exactly when the row opens, the lookback holds
      no earlier row of its lane, and the last one before the lookback left the lane open. */
  lemma LookbackExact(rows: seq<Row>, from: nat, n: nat)
    requires from <= n < |rows|
    ensures Kept(rows, from, n) != Kept(rows, 0, n) <==>
              && rows[n].kind == Opener
              && Previous(rows, from, n).None?
              && rows[n].lane in OpenLanes(rows[..from])
  {
    var p, q := Previous(rows, 0, n), Previous(rows, from, n);
    if q.None? {
      assert rows[0..from] == rows[..from];
      OpenMeansLastOpened(rows, 0, n, from);
      SamePrevious(rows, n, from);
    } else {
      assert p == q;
    }
  }

  lemma {:induction false} SamePrevious(rows: seq<Row>, n: nat, k: nat)
    requires k <= n < |rows| && forall i | k <= i < n :: rows[i].lane != rows[n].lane
    ensures Previous(rows, 0, n) == PreviousFrom(rows, 0, n, k)
  {
    var p, q := Previous(rows, 0, n), PreviousFrom(rows, 0, n, k);
    if p.Some? && q.Some? {
      assert p.value <= q.value && q.value <= p.value;
    }
  }
}
