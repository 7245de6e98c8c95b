/** What the client tracks of its session, what the server holds, and how a reconnect replays the one onto
    the other. */
module SessionReplay {
  import opened Basics
  import opened SqlText

  datatype Session = Session(
    prepared: map<string, string>, channels: set<string>, tempTables: set<string>,
    gucs: map<string, string>, initSql: Option<string>, inTransaction: bool)

  /** A server session outside transactions. `defaults` are the values DISCARD ALL goes back to; `readings`
      records with which setting of standard_conforming_strings the last SET of a parameter was read. */
  datatype Server = Server(
    channels: set<string>, params: map<string, string>, defaults: map<string, string>, readings: map<string, bool>)

  datatype Statement =
    | Listen(channel: string) | Unlisten(channel: string) | UnlistenAll
    | SetGuc(key: string, value: string) | DiscardAll

  /** How the server behaves where the client has no say: which names it takes for the same parameter (it
      ignores case), which texts switch a parameter on, and what opaque initialisation SQL does (None when it
      fails). `rebuild` is the client's own setting. */
  datatype Environment = Environment(
    fold: string -> string, isOn: string -> bool, init: (string, Server) -> Option<Server>, rebuild: bool)

  const STANDARD := "standard_conforming_strings"

  predicate Standard(env: Environment, params: map<string, string>) {
    STANDARD in params ==> env.isOn(params[STANDARD])
  }

  /** What a statement does to the server; ApplyFollowsSql ties it to the SQL text sent for it. */
  function Apply(env: Environment, s: Server, stmt: Statement): Server {
    match stmt
    case Listen(c) => s.(channels := s.channels + {c})
    case Unlisten(c) => s.(channels := s.channels - {c})
    case UnlistenAll => s.(channels := {})
    case SetGuc(k, v) =>
      var standard := Standard(env, s.params);
      s.(params := s.params[env.fold(k) := Stored(v, standard)], readings := s.readings[env.fold(k) := standard])
    case DiscardAll => s.(channels := {}, params := s.defaults, readings := map[])
  }

  /** The effect of a statement is what the server reads in the text sent for it: the text of SET gives back
      the key and the value stored, the text of LISTEN and UNLISTEN the channel, nothing left over. */
  lemma ApplyFollowsSql(env: Environment, s: Server, key: string, value: string, channel: string)
    ensures match ReadSet(SetSql(key, value), Standard(env, s.params))
            case Some((name, stored)) => Apply(env, s, SetGuc(key, value)).params == s.params[env.fold(name) := stored]
            case None => false
    ensures match ReadChannel("LISTEN ", ListenSql(channel))
            case Some(c) => Apply(env, s, Listen(channel)).channels == s.channels + {c}
            case None => false
    ensures match ReadChannel("UNLISTEN ", UnlistenSql(channel))
            case Some(c) => Apply(env, s, Unlisten(channel)).channels == s.channels - {c}
            case None => false
  {
    SetSqlMeans(key, value, Standard(env, s.params));
    ListenSqlMeans(channel);
  }

  /** What the client tracks once a statement has succeeded. */
  function Track(t: Session, stmt: Statement): Session {
    match stmt
    case Listen(c) => t.(channels := t.channels + {c})
    case Unlisten(c) => t.(channels := t.channels - {c})
    case UnlistenAll => t.(channels := {})
    case SetGuc(k, v) => t.(gucs := t.gucs[k := v])
    case DiscardAll => t.(prepared := map[], channels := {}, tempTables := {}, gucs := map[], inTransaction := false)
  }

  // ----- replay -----------------------------------------------------------------------------

  /** `k` is a tracked parameter of server name `name` whose replay succeeds. */
  predicate Replays(env: Environment, gucs: map<string, string>, succeeds: Statement -> bool, name: string, k: string) {
    k in gucs && env.fold(k) == name && succeeds(SetGuc(k, gucs[k]))
  }

  function Relistened(t: Session, succeeds: Statement -> bool): set<string> {
    set c | c in t.channels && succeeds(Listen(c))
  }

  /** `order` lists these keys, each once. */
  ghost predicate Orders(order: seq<string>, keys: set<string>) {
    && (forall k :: k in order <==> k in keys)
    && (forall i, j | 0 <= i < j < |order| :: order[i] != order[j])
  }

  /** Re-SET the listed parameters one after the other, passing over failures. */
  function SetAll(
    env: Environment, s: Server, gucs: map<string, string>, succeeds: Statement -> bool, order: seq<string>): Server
    requires forall k | k in order :: k in gucs
  {
    if order == [] then s
    else
      var n := |order| - 1;
      var stmt := SetGuc(order[n], gucs[order[n]]);
      var before := SetAll(env, s, gucs, succeeds, order[..n]);
      if succeeds(stmt) then Apply(env, before, stmt) else before
  }

  /** The result of replaying `t` on `base`: the channels whose LISTEN succeeds are added, then the parameters
      are set in some order. */
  ghost predicate Rebuilt(env: Environment, succeeds: Statement -> bool, t: Session, base: Server, s: Server) {
    exists order ::
      && Orders(order, t.gucs.Keys)
      && s == SetAll(env, base.(channels := base.channels + Relistened(t, succeeds)), t.gucs, succeeds, order)
  }

  /** What the replay makes of one parameter: the value of some replayed key of its name, as the server read
      it, or what was there when there is none. */
  ghost predicate Replayed(
    env: Environment, succeeds: Statement -> bool, gucs: map<string, string>, order: seq<string>,
    base: Server, s: Server, name: string)
  {
    || (&& name in s.params && name in s.readings
        && exists k :: k in order && Replays(env, gucs, succeeds, name, k)
                       && s.params[name] == Stored(gucs[k], s.readings[name]))
    || ((forall k | k in order :: !Replays(env, gucs, succeeds, name, k)) && SameEntry(base.params, s.params, name))
  }

  lemma {:induction false} SetAllReplays(
    env: Environment, succeeds: Statement -> bool, gucs: map<string, string>, order: seq<string>,
    base: Server, name: string)
    requires forall k | k in order :: k in gucs
    ensures Replayed(env, succeeds, gucs, order, base, SetAll(env, base, gucs, succeeds, order), name)
    ensures SetAll(env, base, gucs, succeeds, order).channels == base.channels
  {
    if order != [] {
      var n := |order| - 1;
      var front, key := order[..n], order[n];
      assert order == front + [key];
      SetAllReplays(env, succeeds, gucs, front, base, name);
      ReplayOneMore(env, succeeds, gucs, front, key, base, name);
    }
  }

  lemma ReplayOneMore(
    env: Environment, succeeds: Statement -> bool, gucs: map<string, string>, front: seq<string>, key: string,
    base: Server, name: string)
    requires forall k | k in front + [key] :: k in gucs
    requires Replayed(env, succeeds, gucs, front, base, SetAll(env, base, gucs, succeeds, front), name)
    ensures Replayed(env, succeeds, gucs, front + [key], base, SetAll(env, base, gucs, succeeds, front + [key]), name)
  {
    var order := front + [key];
    assert order[..|order| - 1] == front;
    var before, after := SetAll(env, base, gucs, succeeds, front), SetAll(env, base, gucs, succeeds, order);
    if Replays(env, gucs, succeeds, name, key) {
      assert key in order && after.params[name] == Stored(gucs[key], after.readings[name]);
    } else {
      assert SameEntry(before.params, after.params, name);
      if k :| k in front && Replays(env, gucs, succeeds, name, k)
              && name in before.params && name in before.readings
              && before.params[name] == Stored(gucs[k], before.readings[name]) {
        assert k in order && after.params[name] == Stored(gucs[k], after.readings[name]);
      }
    }
  }

  /** Unless the replay itself sets standard_conforming_strings, every parameter is read under the setting that
      the new session started with. */
  lemma {:induction false} SteadyReadings(
    env: Environment, succeeds: Statement -> bool, gucs: map<string, string>, order: seq<string>,
    base: Server, name: string)
    requires forall k | k in order :: k in gucs && !Replays(env, gucs, succeeds, STANDARD, k)
    ensures var s := SetAll(env, base, gucs, succeeds, order);
            && Standard(env, s.params) == Standard(env, base.params)
            && ((exists k :: k in order && Replays(env, gucs, succeeds, name, k)) ==>
                  name in s.readings && s.readings[name] == Standard(env, base.params))
  {
    if order != [] {
      var n := |order| - 1;
      assert order == order[..n] + [order[n]];
      assert forall k :: k in order <==> k in order[..n] || k == order[n];
      SteadyReadings(env, succeeds, gucs, order[..n], base, name);
      assert !Replays(env, gucs, succeeds, STANDARD, order[n]);
    }
  }

  predicate SameEntry(a: map<string, string>, b: map<string, string>, name: string) {
    (name in a <==> name in b) && (name in a ==> a[name] == b[name])
  }

  /** A new server session once connected and past the initialisation SQL; None when that failed. */
  function Prepared(env: Environment, t: Session, blank: Server): Option<Server> {
    match t.initSql
    case None => Some(blank)
    case Some(sql) => env.init(sql, blank)
  }

  // ----- runs -------------------------------------------------------------------------------

  /** `server` is None while the transport is dead. */
  datatype World = World(session: Session, server: Option<Server>)

  datatype Action =
    | Run(stmt: Statement, ok: bool)
    | SetInit(sql: Option<string>)
    | Break
    | Reconnect(blank: Option<Server>, succeeds: Statement -> bool)

  ghost predicate Step(env: Environment, w: World, a: Action, w': World) {
    match a
    case Run(stmt, ok) =>
      if ok && w.server.Some?
      then w' == World(Track(w.session, stmt), Some(Apply(env, w.server.value, stmt)))
      else w' == w
    case SetInit(sql) => w' == w.(session := w.session.(initSql := sql))
    case Break => w' == w.(server := None)
    case Reconnect(blank, succeeds) => Reconnected(env, w, blank, succeeds, w')
  }

  /** The tracked session survives whatever happens; the replacement is taken over only when complete. */
  ghost predicate Reconnected(
    env: Environment, w: World, blank: Option<Server>, succeeds: Statement -> bool, w': World)
  {
    && w'.session == w.session
    && (blank.Some? ==> blank.value.channels == {})
    && (var base := if blank.None? then None else Prepared(env, w.session, blank.value);
        if base.None? then w'.server.None?
        else
          && w'.server.Some?
          && (if env.rebuild then Rebuilt(env, succeeds, w.session, base.value, w'.server.value)
              else w'.server == base))
  }

  ghost predicate Runs(env: Environment, ws: seq<World>, acts: seq<Action>) {
    |ws| == |acts| + 1 && forall i | 0 <= i < |acts| :: Step(env, ws[i], acts[i], ws[i + 1])
  }

  // ----- agreement of the tracked session and the server ----------------------------------------

  predicate ChannelsAgree(t: Session, s: Server) { t.channels == s.channels }

  /** Every tracked parameter has its tracked value on the server. */
  predicate ParamsAgree(env: Environment, t: Session, s: Server) {
    forall k | k in t.gucs :: env.fold(k) in s.params && s.params[env.fold(k)] == t.gucs[k]
  }

  /** No parameter is tracked under two spellings with two values. */
  predicate OneSpelling(env: Environment, gucs: map<string, string>) {
    forall j, k | j in gucs && k in gucs && env.fold(j) == env.fold(k) :: gucs[j] == gucs[k]
  }

  /** Every tracked value with a backslash was last read with standard_conforming_strings off. */
  predicate ReadVerbatim(env: Environment, gucs: map<string, string>, s: Server) {
    forall k | k in gucs && '\\' in gucs[k] :: env.fold(k) in s.readings && !s.readings[env.fold(k)]
  }

  /** The parameter's server value is the tracked value of one of its spellings, as the server read it. */
  ghost predicate Held(env: Environment, gucs: map<string, string>, s: Server, k: string) {
    var name := env.fold(k);
    && name in s.params && name in s.readings
    && exists j :: j in gucs && env.fold(j) == name && s.params[name] == Stored(gucs[j], s.readings[name])
  }

  ghost predicate AllHeld(env: Environment, gucs: map<string, string>, s: Server) {
    forall k | k in gucs :: Held(env, gucs, s, k)
  }

  ghost predicate InSync(env: Environment, w: World) {
    w.server.Some? ==>
      ChannelsAgree(w.session, w.server.value) && AllHeld(env, w.session.gucs, w.server.value)
  }

  /** Replay may not fail, and the initialisation SQL may listen only on tracked channels. */
  ghost predicate Faithful(env: Environment, w: World, a: Action) {
    a.Reconnect? ==>
      && env.rebuild
      && (forall stmt :: a.succeeds(stmt))
      && (a.blank.Some? ==>
            var base := Prepared(env, w.session, a.blank.value);
            base.Some? ==> base.value.channels <= w.session.channels)
  }

  lemma SettingHolds(
    env: Environment, gucs: map<string, string>, s: Server, key: string, value: string, k: string)
    requires k in gucs ==> Held(env, gucs, s, k)
    requires k in gucs || k == key
    ensures Held(env, gucs[key := value], Apply(env, s, SetGuc(key, value)), k)
  {
    var gucs', s' := gucs[key := value], Apply(env, s, SetGuc(key, value));
    var name := env.fold(k);
    if name == env.fold(key) {
      assert key in gucs' && s'.params[name] == Stored(gucs'[key], s'.readings[name]);
    } else {
      var j :| j in gucs && env.fold(j) == name && s.params[name] == Stored(gucs[j], s.readings[name]);
      assert j in gucs' && gucs'[j] == gucs[j];
    }
  }

  lemma AllSettingsHold(env: Environment, gucs: map<string, string>, s: Server, key: string, value: string)
    requires AllHeld(env, gucs, s)
    ensures AllHeld(env, gucs[key := value], Apply(env, s, SetGuc(key, value)))
  {
    var gucs', s' := gucs[key := value], Apply(env, s, SetGuc(key, value));
    forall k | k in gucs'
      ensures Held(env, gucs', s', k)
    {
      SettingHolds(env, gucs, s, key, value, k);
    }
  }

  lemma TrackFollowsApply(env: Environment, w: World, stmt: Statement)
    requires InSync(env, w) && w.server.Some?
    ensures InSync(env, World(Track(w.session, stmt), Some(Apply(env, w.server.value, stmt))))
  {
    var gucs, s := w.session.gucs, w.server.value;
    if stmt.SetGuc? {
      AllSettingsHold(env, gucs, s, stmt.key, stmt.value);
    } else if !stmt.DiscardAll? {
      ChannelsApart(env, gucs, s, stmt);
    }
  }

  /** Statements about channels leave the parameters alone. */
  lemma ChannelsApart(env: Environment, gucs: map<string, string>, s: Server, stmt: Statement)
    requires !stmt.SetGuc? && !stmt.DiscardAll?
    requires AllHeld(env, gucs, s)
    ensures AllHeld(env, gucs, Apply(env, s, stmt))
  {
    forall k | k in gucs
      ensures Held(env, gucs, Apply(env, s, stmt), k)
    {
      var _ := HeldSpelling(env, gucs, s, k);
    }
  }

  lemma ReplayHolds(
    env: Environment, succeeds: Statement -> bool, t: Session, base: Server, order: seq<string>, k: string)
    requires Orders(order, t.gucs.Keys) && (forall stmt :: succeeds(stmt)) && k in t.gucs
    ensures Held(env, t.gucs, SetAll(env, base, t.gucs, succeeds, order), k)
  {
    var name := env.fold(k);
    assert k in order && Replays(env, t.gucs, succeeds, name, k);
    SetAllReplays(env, succeeds, t.gucs, order, base, name);
  }

  lemma AllReplayHolds(env: Environment, succeeds: Statement -> bool, t: Session, base: Server, order: seq<string>)
    requires Orders(order, t.gucs.Keys) && (forall stmt :: succeeds(stmt))
    ensures var s := SetAll(env, base, t.gucs, succeeds, order);
            s.channels == base.channels && AllHeld(env, t.gucs, s)
  {
    SetAllReplays(env, succeeds, t.gucs, order, base, "");
    forall k | k in t.gucs
      ensures Held(env, t.gucs, SetAll(env, base, t.gucs, succeeds, order), k)
    {
      ReplayHolds(env, succeeds, t, base, order, k);
    }
  }

  lemma ReconnectFollows(env: Environment, w: World, a: Action, w': World)
    requires a.Reconnect? && Step(env, w, a, w') && Faithful(env, w, a)
    ensures InSync(env, w')
  {
    if w'.server.Some? {
      var order, base := ReplayOrder(env, w, a, w');
      assert Relistened(w.session, a.succeeds) == w.session.channels;
      AllReplayHolds(env, a.succeeds, w.session, base, order);
    }
  }

  /** The order a rebuilding reconnect happened to use, and the server it started from. */
  lemma ReplayOrder(env: Environment, w: World, a: Action, w': World) returns (order: seq<string>, base: Server)
    requires a.Reconnect? && Step(env, w, a, w') && w'.server.Some? && env.rebuild
    ensures Orders(order, w.session.gucs.Keys)
    ensures var prepared := Prepared(env, w.session, a.blank.value).value;
            base == prepared.(channels := prepared.channels + Relistened(w.session, a.succeeds))
    ensures w'.server.value == SetAll(env, base, w.session.gucs, a.succeeds, order)
  {
    var prepared := Prepared(env, w.session, a.blank.value).value;
    base := prepared.(channels := prepared.channels + Relistened(w.session, a.succeeds));
    order :| Orders(order, w.session.gucs.Keys) &&
             w'.server.value == SetAll(env, base, w.session.gucs, a.succeeds, order);
  }

  lemma StepKeepsSync(env: Environment, w: World, a: Action, w': World)
    requires InSync(env, w) && Step(env, w, a, w') && Faithful(env, w, a)
    ensures InSync(env, w')
  {
    if a.Run? && a.ok && w.server.Some? {
      TrackFollowsApply(env, w, a.stmt);
    } else if a.Reconnect? {
      ReconnectFollows(env, w, a, w');
    }
  }

  /** The spelling whose value the server holds. */
  lemma HeldSpelling(env: Environment, gucs: map<string, string>, s: Server, k: string) returns (j: string)
    requires Held(env, gucs, s, k)
    ensures j in gucs && env.fold(j) == env.fold(k)
    ensures s.params[env.fold(k)] == Stored(gucs[j], s.readings[env.fold(k)])
    ensures s.params[env.fold(k)] == gucs[j] <==> !s.readings[env.fold(k)] || '\\' !in gucs[j]
  {
    var name := env.fold(k);
    j :| j in gucs && env.fold(j) == name && s.params[name] == Stored(gucs[j], s.readings[name]);
    StoredIff(gucs[j], s.readings[name]);
  }

  lemma AgreementReadsVerbatim(env: Environment, t: Session, s: Server, k: string)
    requires ParamsAgree(env, t, s) && k in t.gucs && Held(env, t.gucs, s, k)
    ensures '\\' in t.gucs[k] ==> !s.readings[env.fold(k)]
  {
    var j := HeldSpelling(env, t.gucs, s, k);
  }

  lemma VerbatimAgrees(env: Environment, t: Session, s: Server, k: string)
    requires OneSpelling(env, t.gucs) && ReadVerbatim(env, t.gucs, s) && k in t.gucs && Held(env, t.gucs, s, k)
    ensures s.params[env.fold(k)] == t.gucs[k]
  {
    var j := HeldSpelling(env, t.gucs, s, k);
  }

  lemma SyncedParamsIff(env: Environment, w: World)
    requires InSync(env, w) && w.server.Some?
    ensures ParamsAgree(env, w.session, w.server.value)
            <==> OneSpelling(env, w.session.gucs) && ReadVerbatim(env, w.session.gucs, w.server.value)
  {
    var t, s := w.session, w.server.value;
    if ParamsAgree(env, t, s) {
      forall k | k in t.gucs && '\\' in t.gucs[k]
        ensures env.fold(k) in s.readings && !s.readings[env.fold(k)]
      {
        assert Held(env, t.gucs, s, k);
        AgreementReadsVerbatim(env, t, s, k);
      }
    } else if OneSpelling(env, t.gucs) && ReadVerbatim(env, t.gucs, s) {
      forall k | k in t.gucs
        ensures env.fold(k) in s.params && s.params[env.fold(k)] == t.gucs[k]
      {
        assert Held(env, t.gucs, s, k);
        VerbatimAgrees(env, t, s, k);
      }
    }
  }

  /** Session replay over whole runs: breaks, failed statements and failed reconnects at any point, any
      replay order, any initialisation SQL. Whenever a server session is live, the tracked channels are the
      server's; and every tracked parameter has its tracked value there if and only if no parameter is
      tracked under two spellings with different values, and every tracked value that holds a backslash was
      last read with standard_conforming_strings off. */
  lemma {:induction false} ReplaySafety(env: Environment, ws: seq<World>, acts: seq<Action>, n: nat)
    requires Runs(env, ws, acts) && InSync(env, ws[0]) && n < |ws|
    requires forall i | 0 <= i < n :: Faithful(env, ws[i], acts[i])
    ensures InSync(env, ws[n])
    ensures ws[n].server.Some? ==>
              var t, s := ws[n].session, ws[n].server.value;
              && ChannelsAgree(t, s)
              && (ParamsAgree(env, t, s) <==> OneSpelling(env, t.gucs) && ReadVerbatim(env, t.gucs, s))
  {
    if n > 0 {
      ReplaySafety(env, ws, acts, n - 1);
      StepKeepsSync(env, ws[n - 1], acts[n - 1], ws[n]);
    }
    if ws[n].server.Some? {
      SyncedParamsIff(env, ws[n]);
    }
  }

  /** One backslash breaks it: on a server with its default setting, `set_param` tracks the value and the server
      stores it with the backslash doubled. */
  lemma BackslashDisagrees(env: Environment, t: Session, s: Server)
    requires Standard(env, s.params)
    ensures var setting := SetGuc("application_name", "a\\b");
            && Apply(env, s, setting).params[env.fold("application_name")] == "a\\\\b"
            && !ParamsAgree(env, Track(t, setting), Apply(env, s, setting))
  {
    var setting := SetGuc("application_name", "a\\b");
    var v := "a\\b";
    assert v[1..] == "\\b" && v[1..][1..] == "b" && v[1..][1..][1..] == "";
    assert Doubled("b", '\\') == "b" && Doubled("\\b", '\\') == "\\\\b" && Doubled(v, '\\') == "a\\\\b";
    assert "application_name" in Track(t, setting).gucs;
  }

  /** Where the replay sets standard_conforming_strings itself, its order decides: set off first, the backslash
      survives; set off last, it is doubled. */
  lemma OrderDecides(env: Environment, base: Server, succeeds: Statement -> bool)
    requires env.fold(STANDARD) == STANDARD && env.fold("application_name") == "application_name"
    requires !env.isOn("off") && base.params == map[] && (forall stmt :: succeeds(stmt))
    ensures var gucs := map[STANDARD := "off", "application_name" := "a\\b"];
            var first := SetAll(env, base, gucs, succeeds, [STANDARD, "application_name"]).params;
            var last := SetAll(env, base, gucs, succeeds, ["application_name", STANDARD]).params;
            && "application_name" in first && first["application_name"] == "a\\b"
            && "application_name" in last && last["application_name"] == "a\\\\b"
  {
    var gucs := map[STANDARD := "off", "application_name" := "a\\b"];
    DoublingLengthens("off", '\\');
    BackslashDisagrees(env, Session(map[], {}, {}, map[], None, false), base);
    SetAllTwice(env, base, gucs, succeeds, STANDARD, "application_name");
    SetAllTwice(env, base, gucs, succeeds, "application_name", STANDARD);
  }

  lemma SetAllTwice(
    env: Environment, s: Server, gucs: map<string, string>, succeeds: Statement -> bool, j: string, k: string)
    requires j in gucs && k in gucs && (forall stmt :: succeeds(stmt))
    ensures SetAll(env, s, gucs, succeeds, [j, k]) == Apply(env, Apply(env, s, SetGuc(j, gucs[j])), SetGuc(k, gucs[k]))
  {
    assert [j, k][..1] == [j] && [j][..0] == [];
    assert SetAll(env, s, gucs, succeeds, [j]) == Apply(env, s, SetGuc(j, gucs[j]));
  }

  /** Two spellings do break it: the later setting wins on the server, both stay tracked. */
  lemma TwoSpellingsDisagree(env: Environment, t: Session, s: Server, j: string, k: string, u: string, v: string)
    requires env.fold(j) == env.fold(k) && j != k && u != v
    ensures var t' := Track(Track(t, SetGuc(j, u)), SetGuc(k, v));
            var s' := Apply(env, Apply(env, s, SetGuc(j, u)), SetGuc(k, v));
            !ParamsAgree(env, t', s')
  {
    var t' := Track(Track(t, SetGuc(j, u)), SetGuc(k, v));
    assert j in t'.gucs && t'.gucs[j] == u;
  }

  /** One reconnect, exactly: the channels agree afterwards if and only if the initialisation SQL listens on
      nothing untracked and every tracked channel it does not listen on is replayed successfully. */
  lemma ReconnectChannelsIff(env: Environment, w: World, a: Action, w': World)
    requires a.Reconnect? && Step(env, w, a, w') && w'.server.Some?
    ensures var base := Prepared(env, w.session, a.blank.value).value;
            ChannelsAgree(w'.session, w'.server.value)
            <==> && base.channels <= w.session.channels
                 && forall c | c in w.session.channels - base.channels :: env.rebuild && a.succeeds(Listen(c))
  {
    var base := Prepared(env, w.session, a.blank.value).value;
    var tracked, s := w.session.channels, w'.server.value;
    if env.rebuild {
      var order, start := ReplayOrder(env, w, a, w');
      SetAllReplays(env, a.succeeds, w.session.gucs, order, start, "");
    }
    assert s.channels == base.channels + (if env.rebuild then Relistened(w.session, a.succeeds) else {});
    if ChannelsAgree(w'.session, s) {
      forall c | c in tracked - base.channels
        ensures env.rebuild && a.succeeds(Listen(c))
      {
        assert c in s.channels;
      }
    } else if base.channels <= tracked {
      var c :| c in tracked && c !in s.channels;
      assert c in tracked - base.channels;
    }
  }

  /** Runtime settings win over the initialisation SQL: a parameter of one spelling whose replay succeeds has its
      tracked value as the server read it, whatever the initialisation SQL set it to, and so the tracked value
      itself if and only if it was read with standard_conforming_strings off or holds no backslash. Unless that
      setting is itself replayed, it is the one the new session started with. Names not replayed keep theirs. */
  lemma ReplayOverridesInit(env: Environment, w: World, a: Action, w': World, name: string, k: string)
    requires a.Reconnect? && Step(env, w, a, w') && w'.server.Some? && env.rebuild
    requires OneSpelling(env, w.session.gucs)
    ensures Replays(env, w.session.gucs, a.succeeds, name, k) ==>
              var s, value := w'.server.value, w.session.gucs[k];
              && name in s.params && name in s.readings && s.params[name] == Stored(value, s.readings[name])
              && (s.params[name] == value <==> !s.readings[name] || '\\' !in value)
              && ((forall j :: !Replays(env, w.session.gucs, a.succeeds, STANDARD, j)) ==>
                    s.readings[name] == Standard(env, Prepared(env, w.session, a.blank.value).value.params))
    ensures (forall j :: !Replays(env, w.session.gucs, a.succeeds, name, j)) ==>
              SameEntry(Prepared(env, w.session, a.blank.value).value.params, w'.server.value.params, name)
  {
    var order, base := ReplayOrder(env, w, a, w');
    var gucs := w.session.gucs;
    SetAllReplays(env, a.succeeds, gucs, order, base, name);
    if Replays(env, gucs, a.succeeds, name, k) {
      assert k in order;
      StoredIff(gucs[k], w'.server.value.readings[name]);
      if forall j :: !Replays(env, gucs, a.succeeds, STANDARD, j) {
        SteadyReadings(env, a.succeeds, gucs, order, base, name);
      }
    }
  }
}

/** The client side as the program has it: the tracking object, updated in place, and the connection that
    keeps it in step with the server. */
module Sessions {
  import opened Basics
  import Replay = SessionReplay

  class SessionState {
    var preparedStatements: map<string, string>
    var listenChannels: set<string>
    var temporaryTables: set<string>
    var customGucs: map<string, string>
    var reconnectInitSql: Option<string>
    var inTransaction: bool

    ghost function View(): Replay.Session
      reads this
    {
      Replay.Session(preparedStatements, listenChannels, temporaryTables, customGucs, reconnectInitSql, inTransaction)
    }

    constructor ()
      ensures View() == Replay.Session(map[], {}, {}, map[], None, false)
    {
      preparedStatements, listenChannels, temporaryTables, customGucs := map[], {}, {}, map[];
      reconnectInitSql, inTransaction := None, false;
    }

    method TrackListen(channel: string)
      modifies this
      ensures View() == Replay.Track(old(View()), Replay.Listen(channel))
      ensures listenChannels == old(listenChannels) + {channel} && customGucs == old(customGucs)
    {
      listenChannels := listenChannels + {channel};
    }

    method TrackUnlisten(channel: string)
      modifies this
      ensures View() == Replay.Track(old(View()), Replay.Unlisten(channel))
      ensures listenChannels == old(listenChannels) - {channel} && customGucs == old(customGucs)
    {
      listenChannels := listenChannels - {channel};
    }

    method ClearListenChannels()
      modifies this
      ensures View() == Replay.Track(old(View()), Replay.UnlistenAll)
      ensures listenChannels == {} && customGucs == old(customGucs)
    {
      listenChannels := {};
    }

    method TrackSetGuc(key: string, value: string)
      modifies this
      ensures View() == Replay.Track(old(View()), Replay.SetGuc(key, value))
      ensures customGucs == old(customGucs)[key := value] && listenChannels == old(listenChannels)
    {
      customGucs := customGucs[key := value];
    }

    /** The initialisation SQL outlives a reset. */
    method Clear()
      modifies this
      ensures View() == Replay.Track(old(View()), Replay.DiscardAll)
      ensures preparedStatements == map[] && listenChannels == {} && temporaryTables == {} && customGucs == map[]
      ensures !inTransaction && reconnectInitSql == old(reconnectInitSql) && IsReconnectSafe()
    {
      preparedStatements := map[];
      listenChannels := {};
      temporaryTables := {};
      customGucs := map[];
      inTransaction := false;
    }

    predicate HasState()
      reads this
    {
      preparedStatements != map[] || listenChannels != {} || temporaryTables != {} || customGucs != map[]
    }

    predicate IsReconnectSafe()
      reads this
    {
      !inTransaction && !HasState()
    }
  }

  class Client {
    const env: Replay.Environment
    const session: SessionState
    var server: Option<Replay.Server>

    ghost function View(): Replay.World
      reads this, session
    {
      Replay.World(session.View(), server)
    }

    constructor (env: Replay.Environment, server: Option<Replay.Server>)
      ensures this.env == env && this.server == server && fresh(session)
      ensures session.View() == Replay.Session(map[], {}, {}, map[], None, false)
    {
      this.env, this.server := env, server;
      session := new SessionState();
    }

    /** One statement: it reaches the server only over a live transport, and `ok` says whether it succeeds. */
    method Execute(stmt: Replay.Statement, ok: bool) returns (done: bool)
      modifies this
      ensures done <==> ok && old(server).Some?
      ensures server == if done then Some(Replay.Apply(env, old(server).value, stmt)) else old(server)
    {
      if !ok || server.None? {
        return false;
      }
      server := Some(Replay.Apply(env, server.value, stmt));
      return true;
    }

    method Listen(channel: string, ok: bool) returns (done: bool)
      modifies this, session
      ensures Replay.Step(env, old(View()), Replay.Run(Replay.Listen(channel), ok), View())
      ensures done <==> ok && old(server).Some?
    {
      done := Execute(Replay.Listen(channel), ok);
      if done {
        session.TrackListen(channel);
      }
    }

    method Unlisten(channel: string, ok: bool) returns (done: bool)
      modifies this, session
      ensures Replay.Step(env, old(View()), Replay.Run(Replay.Unlisten(channel), ok), View())
      ensures done <==> ok && old(server).Some?
    {
      done := Execute(Replay.Unlisten(channel), ok);
      if done {
        session.TrackUnlisten(channel);
      }
    }

    method UnlistenAll(ok: bool) returns (done: bool)
      modifies this, session
      ensures Replay.Step(env, old(View()), Replay.Run(Replay.UnlistenAll, ok), View())
      ensures done <==> ok && old(server).Some?
    {
      done := Execute(Replay.UnlistenAll, ok);
      if done {
        session.ClearListenChannels();
      }
    }

    method SetParam(key: string, value: string, ok: bool) returns (done: bool)
      modifies this, session
      ensures Replay.Step(env, old(View()), Replay.Run(Replay.SetGuc(key, value), ok), View())
      ensures done <==> ok && old(server).Some?
      ensures session.customGucs == if done then old(session.customGucs)[key := value] else old(session.customGucs)
    {
      done := Execute(Replay.SetGuc(key, value), ok);
      if done {
        session.TrackSetGuc(key, value);
      }
    }

    /** `reset` outside a transaction. */
    method Reset(ok: bool) returns (done: bool)
      modifies this, session
      ensures Replay.Step(env, old(View()), Replay.Run(Replay.DiscardAll, ok), View())
      ensures done <==> ok && old(server).Some?
    {
      done := Execute(Replay.DiscardAll, ok);
      if done {
        session.Clear();
      }
    }

    method SetReconnectInitSql(sql: Option<string>)
      modifies session
      ensures Replay.Step(env, old(View()), Replay.SetInit(sql), View())
    {
      session.reconnectInitSql := sql;
    }

    /** Re-LISTEN in any order; failures are passed over. */
    method RebuildChannels(state: Replay.Session, succeeds: Replay.Statement -> bool)
      requires server.Some?
      modifies this, session
      ensures server.Some? && server.value == old(server).value.(channels := server.value.channels)
      ensures server.value.channels == old(server).value.channels + Replay.Relistened(state, succeeds)
    {
      var pending := state.channels;
      while pending != {}
        invariant pending <= state.channels
        invariant server.Some? && server.value == old(server).value.(channels := server.value.channels)
        invariant server.value.channels == old(server).value.channels
                    + set c | c in state.channels && c !in pending && succeeds(Replay.Listen(c))
      {
        var channel :| channel in pending;
        var done := Execute(Replay.Listen(channel), succeeds(Replay.Listen(channel)));
        if done {
          session.TrackListen(channel);
        }
        pending := pending - {channel};
      }
    }

    /** Re-SET in any order; failures are passed over. */
    method RebuildParams(state: Replay.Session, succeeds: Replay.Statement -> bool)
      requires server.Some?
      modifies this, session
      ensures server.Some?
      ensures exists order ::
                && Replay.Orders(order, state.gucs.Keys)
                && server.value == Replay.SetAll(env, old(server).value, state.gucs, succeeds, order)
    {
      var pending := state.gucs;
      ghost var order: seq<string> := [];
      while pending != map[]
        invariant pending.Items <= state.gucs.Items && server.Some?
        invariant Replay.Orders(order, state.gucs.Keys - pending.Keys)
        invariant server.value == Replay.SetAll(env, old(server).value, state.gucs, succeeds, order)
        decreases pending.Keys
      {
        var key :| key in pending;
        var value := pending[key];
        assert (key, value) in pending.Items;
        assert (order + [key])[..|order|] == order;
        order := order + [key];
        var done := Execute(Replay.SetGuc(key, value), succeeds(Replay.SetGuc(key, value)));
        if done {
          session.TrackSetGuc(key, value);
        }
        pending := pending - {key};
      }
      assert state.gucs.Keys - pending.Keys == state.gucs.Keys;
    }

    method RebuildSession(state: Replay.Session, succeeds: Replay.Statement -> bool)
      requires server.Some?
      modifies this, session
      ensures server.Some? && Replay.Rebuilt(env, succeeds, state, old(server).value, server.value)
    {
      RebuildChannels(state, succeeds);
      RebuildParams(state, succeeds);
    }

    /** A replacement is connected, initialised and rebuilt completely before it is taken over. */
    method Reconnect(blank: Option<Replay.Server>, succeeds: Replay.Statement -> bool) returns (done: bool)
      requires blank.Some? ==> blank.value.channels == {}
      modifies this
      ensures Replay.Step(env, old(View()), Replay.Reconnect(blank, succeeds), View())
      ensures done <==> server.Some?
      ensures var started :=
                if blank.None? || session.reconnectInitSql.None? then blank
                else env.init(session.reconnectInitSql.value, blank.value);
              (done <==> started.Some?) && (!env.rebuild ==> server == started)
    {
      var state := Replay.Session(session.preparedStatements, session.listenChannels, session.temporaryTables,
                                  session.customGucs, session.reconnectInitSql, session.inTransaction);
      server := None;
      if blank.None? {
        return false;
      }
      var replacement := new Client(env, blank);
      if state.initSql.Some? {
        replacement.server := env.init(state.initSql.value, blank.value);
        if replacement.server.None? {
          return false;
        }
      }
      if env.rebuild {
        replacement.RebuildSession(state, succeeds);
      }
      server := replacement.server;
      return true;
    }
  }
}
