/**
 Launch URLs and their tokens (packages/control-plane/src/routes/launches.ts:80-206, 230-268, 322-362;
 redeem.ts:61-148; batches.ts:264-276, 370-460; auth/jwt.ts:19-48). A token carries the launch id and a jti (section
 4.1.7 of RFC 7519); it is honoured while its jti is the one stored on the launch row. Times are in milliseconds, token
 lifetimes in seconds.
 */
module LaunchTokens {
  import opened Prelude

  datatype Token = Token(sub: string, jti: string, exp: nat)

  datatype Launch = Launch(tenant: string, batch: Option<string>, tokenJti: Option<string>, expiresAt: nat,
                           redeemedAt: Option<nat>, instanceId: Option<string>)

  /** `issued`: every token ever signed. `billed`: the launch_redeemed events, with the jti that was redeemed. */
  datatype Store = Store(launches: map<string, Launch>, issued: set<Token>, billed: seq<(string, string)>)

  const PREVIEW_TTL: nat := 300

  datatype Op =
    | Create(id: string, jti: string, tenant: string, batch: Option<string>, ttl: nat, now: nat)
    | Preview(tenant: string, id: string, now: nat)
    | Regenerate(tenant: string, id: string, jti: string, ttlHours: Option<nat>, now: nat)
    | Revoke(tenant: string, id: string, now: nat)
    | RevokeUnredeemed(tenant: string, batchId: string, now: nat)
    | TerminateBatch(tenant: string, batchId: string, now: nat)
    | ExtendBatch(tenant: string, batchId: string, hours: nat)
    | Prepare(tenant: string, id: string, live: bool, acquired: Option<string>, now: nat)
    | Redeem(token: Token, live: bool, acquired: Option<string>, now: nat)

  datatype Reply = InvalidToken | LaunchNotFound | TokenRevoked | LaunchExpired | ProvisionFailed | Admitted

  function Exp(now: nat, ttl: nat): nat {
    now / 1000 + ttl
  }

  predicate Owned(s: Store, tenant: string, id: string) {
    id in s.launches && s.launches[id].tenant == tenant
  }

  predicate InBatch(l: Launch, tenant: string, batch: string) {
    l.tenant == tenant && l.batch == Some(batch)
  }

  // ---------- redeeming ----------

  /** The answers before anything is provisioned, in the order of the checks. */
  function Gate(s: Store, token: Token, now: nat): Reply {
    if token !in s.issued || token.exp <= now / 1000 then InvalidToken
    else if token.sub !in s.launches then LaunchNotFound
    else if s.launches[token.sub].tokenJti != Some(token.jti) then TokenRevoked
    else if s.launches[token.sub].expiresAt <= now then LaunchExpired
    else Admitted
  }

  /**
   The writes of a redeem whose check of the row saw `seen`. `live`: the attached instance can be reused. `acquired`:
   the instance acquired and attached otherwise, None when that throws.
   */
  function Settle(s: Store, token: Token, seen: Launch, live: bool, acquired: Option<string>, now: nat): Store
    requires token.sub in s.launches
  {
    var row := s.launches[token.sub];
    var reuse := seen.instanceId.Some? && live;
    if !reuse && acquired.None? then s else
      var row' := row.(redeemedAt := if reuse && seen.redeemedAt.Some? then row.redeemedAt
                                     else Some(seen.redeemedAt.GetOr(now)),
                       instanceId := if reuse then row.instanceId else acquired);
      s.(launches := s.launches[token.sub := row'],
         billed := if seen.redeemedAt.None? then s.billed + [(token.sub, token.jti)] else s.billed)
  }

  function RedeemReply(s: Store, token: Token, live: bool, acquired: Option<string>, now: nat): Reply {
    var g := Gate(s, token, now);
    if g.Admitted? && !(s.launches[token.sub].instanceId.Some? && live) && acquired.None? then ProvisionFailed else g
  }

  // ---------- every operation ----------

  function Revoked(l: Launch, now: nat): Launch {
    l.(tokenJti := None, expiresAt := now)
  }

  function Apply(s: Store, op: Op): Store {
    match op
    case Create(id, jti, tenant, batch, ttl, now) =>
      s.(launches := s.launches[id := Launch(tenant, batch, Some(jti), Exp(now, ttl) * 1000, None, None)],
         issued := s.issued + {Token(id, jti, Exp(now, ttl))})
    case Preview(tenant, id, now) =>
      if Owned(s, tenant, id) && s.launches[id].tokenJti.Some?
      then s.(issued := s.issued + {Token(id, s.launches[id].tokenJti.value, Exp(now, PREVIEW_TTL))})
      else s
    case Regenerate(tenant, id, jti, ttlHours, now) =>
      if !Owned(s, tenant, id) then s else
        var exp := Exp(now, ttlHours.GetOr(720) * 3600);
        s.(launches := s.launches[id := s.launches[id].(tokenJti := Some(jti), expiresAt := exp * 1000, redeemedAt := None)],
           issued := s.issued + {Token(id, jti, exp)})
    case Revoke(tenant, id, now) =>
      if Owned(s, tenant, id) then s.(launches := s.launches[id := Revoked(s.launches[id], now)]) else s
    case RevokeUnredeemed(tenant, batch, now) =>
      s.(launches := map id | id in s.launches ::
           if InBatch(s.launches[id], tenant, batch) && s.launches[id].redeemedAt.None?
           then Revoked(s.launches[id], now) else s.launches[id])
    case TerminateBatch(tenant, batch, now) =>
      s.(launches := map id | id in s.launches ::
           if InBatch(s.launches[id], tenant, batch) then Revoked(s.launches[id], now) else s.launches[id])
    case ExtendBatch(tenant, batch, hours) =>
      s.(launches := map id | id in s.launches ::
           if InBatch(s.launches[id], tenant, batch)
           then s.launches[id].(expiresAt := s.launches[id].expiresAt + hours * 3600000) else s.launches[id])
    case Prepare(tenant, id, live, acquired, now) =>
      if Owned(s, tenant, id) && s.launches[id].expiresAt > now
         && !(s.launches[id].instanceId.Some? && live) && acquired.Some?
      then s.(launches := s.launches[id := s.launches[id].(instanceId := acquired)])
      else s
    case Redeem(token, live, acquired, now) =>
      if Gate(s, token, now).Admitted? then Settle(s, token, s.launches[token.sub], live, acquired, now) else s
  }

  /** Ids and jtis are long random strings: a new one is not among those used before. */
  ghost predicate FreshOp(s: Store, op: Op) {
    match op
    case Create(id, jti, _, _, _, _) => id !in s.launches && forall t :: t in s.issued ==> t.jti != jti
    case Regenerate(_, _, jti, _, _) => forall t :: t in s.issued ==> t.jti != jti
    case _ => true
  }

  function Run(s: Store, ops: seq<Op>): Store
    decreases |ops|
  {
    if ops == [] then s else Run(Apply(s, ops[0]), ops[1..])
  }

  ghost predicate FreshRun(s: Store, ops: seq<Op>)
    decreases |ops|
  {
    ops == [] || (FreshOp(s, ops[0]) && FreshRun(Apply(s, ops[0]), ops[1..]))
  }

  // ---------- superseded tokens stay dead ----------

  ghost predicate Used(s: Store, jti: string) {
    exists t :: t in s.issued && t.jti == jti
  }

  /** The jti has been issued, and is not the one the launch honours. */
  ghost predicate Dead(s: Store, id: string, jti: string) {
    Used(s, jti) && id in s.launches && s.launches[id].tokenJti != Some(jti)
  }

  lemma StaysDead(s: Store, op: Op, id: string, jti: string)
    requires Dead(s, id, jti) && FreshOp(s, op)
    ensures Dead(Apply(s, op), id, jti)
  {
    var t :| t in s.issued && t.jti == jti;
    assert t in Apply(s, op).issued;
  }

  /**
   Once a jti of a launch has been replaced or cleared, no token with it is admitted again, whatever is created,
   previewed, prepared, extended, regenerated, revoked, terminated or redeemed in between.
   */
  lemma {:induction false} SupersededNeverRedeems(s: Store, ops: seq<Op>, id: string, jti: string, exp: nat, now: nat)
    requires Dead(s, id, jti) && FreshRun(s, ops)
    ensures !Gate(Run(s, ops), Token(id, jti, exp), now).Admitted?
    decreases |ops|
  {
    hide Apply, FreshOp;
    if ops != [] {
      StaysDead(s, ops[0], id, jti);
      SupersededNeverRedeems(Apply(s, ops[0]), ops[1..], id, jti, exp, now);
    }
  }

  /** The operations that supersede: regenerate, revoke, and the two batch revocations, the first of unredeemed seats only. */
  lemma Supersedes(s: Store, op: Op, id: string)
    requires id in s.launches && s.launches[id].tokenJti.Some? && Used(s, s.launches[id].tokenJti.value) && FreshOp(s, op)
    ensures Dead(Apply(s, op), id, s.launches[id].tokenJti.value) <==>
              || (op.Regenerate? && op.id == id && op.tenant == s.launches[id].tenant)
              || (op.Revoke? && op.id == id && op.tenant == s.launches[id].tenant)
              || (op.RevokeUnredeemed? && InBatch(s.launches[id], op.tenant, op.batchId) && s.launches[id].redeemedAt.None?)
              || (op.TerminateBatch? && InBatch(s.launches[id], op.tenant, op.batchId))
  {
    var t :| t in s.issued && t.jti == s.launches[id].tokenJti.value;
    assert t in Apply(s, op).issued;
  }

  // ---------- every generation is billed at most once ----------

  ghost predicate Sound(s: Store) {
    && (forall id :: id in s.launches && s.launches[id].tokenJti.Some? ==> Used(s, s.launches[id].tokenJti.value))
    && (forall e :: e in s.billed ==> e.0 in s.launches && Used(s, e.1))
    && (forall id :: id in s.launches && s.launches[id].redeemedAt.None? && s.launches[id].tokenJti.Some? ==>
          (id, s.launches[id].tokenJti.value) !in s.billed)
    && (forall i, j :: 0 <= i < j < |s.billed| ==> s.billed[i] != s.billed[j])
  }

  lemma UsedGrows(s: Store, op: Op, jti: string)
    ensures Used(s, jti) ==> Used(Apply(s, op), jti)
  {
    if Used(s, jti) {
      var t :| t in s.issued && t.jti == jti;
      assert t in Apply(s, op).issued;
    }
  }

  lemma NewTokenUsed(s: Store, op: Op)
    requires op.Create? || (op.Regenerate? && Owned(s, op.tenant, op.id))
    ensures Used(Apply(s, op), op.jti)
  {
    var exp := if op.Create? then Exp(op.now, op.ttl) else Exp(op.now, op.ttlHours.GetOr(720) * 3600);
    assert Token(op.id, op.jti, exp) in Apply(s, op).issued;
  }

  lemma OpKeepsSound(s: Store, op: Op)
    requires Sound(s) && FreshOp(s, op)
    ensures Sound(Apply(s, op))
  {
    hide Exp;
    forall jti: string ensures Used(s, jti) ==> Used(Apply(s, op), jti) { UsedGrows(s, op, jti); }
    if op.Create? || (op.Regenerate? && Owned(s, op.tenant, op.id)) {
      NewTokenUsed(s, op);
      assert !Used(s, op.jti);
    }
  }

  const EMPTY: Store := Store(map[], {}, [])

  lemma {:induction false} RunKeepsSound(s: Store, ops: seq<Op>)
    requires Sound(s) && FreshRun(s, ops)
    ensures Sound(Run(s, ops))
    decreases |ops|
  {
    hide Sound, Apply, FreshOp;
    if ops != [] {
      OpKeepsSound(s, ops[0]);
      RunKeepsSound(Apply(s, ops[0]), ops[1..]);
    }
  }

  /** A redeemed launch that still has a jti has been billed for it. */
  ghost predicate Paid(s: Store) {
    forall id :: id in s.launches && s.launches[id].redeemedAt.Some? && s.launches[id].tokenJti.Some? ==>
      (id, s.launches[id].tokenJti.value) in s.billed
  }

  /** The operation is a redeem of that generation that is let in and gets its instance. */
  predicate Redeems(s: Store, op: Op, id: string, jti: string) {
    op.Redeem? && op.token.sub == id && op.token.jti == jti && RedeemReply(s, op.token, op.live, op.acquired, op.now).Admitted?
  }

  lemma OpKeepsPaid(s: Store, op: Op)
    requires Paid(s) && FreshOp(s, op)
    ensures Paid(Apply(s, op))
  {
    hide Exp;
  }

  /** One operation bills exactly the generation it redeems, if that was not billed before. */
  lemma OpBills(s: Store, op: Op, id: string, jti: string)
    requires Paid(s) && FreshOp(s, op)
    ensures (id, jti) in Apply(s, op).billed <==> (id, jti) in s.billed || Redeems(s, op, id, jti)
  {
    hide Exp;
    if Redeems(s, op, id, jti) {
      assert (id, jti) in s.billed || s.launches[id].redeemedAt.None?;
    }
  }

  /** Somewhere in the run the generation is redeemed. */
  ghost predicate RedeemedIn(s: Store, ops: seq<Op>, id: string, jti: string)
    decreases |ops|
  {
    ops != [] && (Redeems(s, ops[0], id, jti) || RedeemedIn(Apply(s, ops[0]), ops[1..], id, jti))
  }

  lemma {:induction false} BilledIffRedeemed(s: Store, ops: seq<Op>, id: string, jti: string)
    requires Paid(s) && FreshRun(s, ops)
    ensures (id, jti) in Run(s, ops).billed <==> (id, jti) in s.billed || RedeemedIn(s, ops, id, jti)
    decreases |ops|
  {
    hide Paid, Apply, FreshOp, Redeems;
    if ops != [] {
      OpKeepsPaid(s, ops[0]);
      OpBills(s, ops[0], id, jti);
      BilledIffRedeemed(Apply(s, ops[0]), ops[1..], id, jti);
    }
  }

  /**
   From an empty database, with atomic operations: a generation is billed if and only if it was redeemed, and never
   twice. Previews and repeated visits are free.
   */
  lemma EachGenerationBilledOnce(ops: seq<Op>, id: string, jti: string)
    requires FreshRun(EMPTY, ops)
    ensures (id, jti) in Run(EMPTY, ops).billed <==> RedeemedIn(EMPTY, ops, id, jti)
    ensures var billed := Run(EMPTY, ops).billed; forall i, j :: 0 <= i < j < |billed| ==> billed[i] != billed[j]
  {
    hide Run, FreshRun;
    RunKeepsSound(EMPTY, ops);
    BilledIffRedeemed(EMPTY, ops, id, jti);
  }

  function Bills(billed: seq<(string, string)>, id: string): nat {
    if billed == [] then 0 else
      var n := |billed| - 1;
      Bills(billed[..n], id) + if billed[n].0 == id then 1 else 0
  }

  function Regens(ops: seq<Op>, id: string): nat {
    if ops == [] then 0 else (if ops[0].Regenerate? && ops[0].id == id then 1 else 0) + Regens(ops[1..], id)
  }

  /** Bills, plus one if the current generation can still be billed, minus one for the first generation. */
  function Owed(s: Store, id: string): int {
    Bills(s.billed, id) + if id in s.launches && s.launches[id].redeemedAt.Some? then -1 else 0
  }

  lemma OpOwes(s: Store, op: Op, id: string)
    requires FreshOp(s, op)
    ensures Owed(Apply(s, op), id) <= Owed(s, id) + if op.Regenerate? && op.id == id then 1 else 0
  {
    hide Exp, Gate;
    if op.Redeem? && Gate(s, op.token, op.now).Admitted? {
      assert op.token.sub in s.launches by { Admits(s, op.token, op.now); }
      assert (s.billed + [(op.token.sub, op.token.jti)])[..|s.billed|] == s.billed;
    }
  }

  /** Exactly when a token is let through. */
  lemma Admits(s: Store, token: Token, now: nat)
    ensures Gate(s, token, now).Admitted? <==>
              && token in s.issued && now / 1000 < token.exp
              && token.sub in s.launches && s.launches[token.sub].tokenJti == Some(token.jti)
              && now < s.launches[token.sub].expiresAt
  {
  }

  lemma {:induction false} RunOwes(s: Store, ops: seq<Op>, id: string)
    requires FreshRun(s, ops)
    ensures Owed(Run(s, ops), id) <= Owed(s, id) + Regens(ops, id)
    decreases |ops|
  {
    hide Owed, Apply, FreshOp;
    if ops != [] {
      OpOwes(s, ops[0], id);
      RunOwes(Apply(s, ops[0]), ops[1..], id);
    }
  }

  /** A launch is billed at most once, and once more per regeneration. */
  lemma BillingBound(ops: seq<Op>, id: string)
    requires FreshRun(EMPTY, ops)
    ensures Bills(Run(EMPTY, ops).billed, id) <= 1 + Regens(ops, id)
  {
    hide Run, FreshRun;
    RunOwes(EMPTY, ops, id);
  }

  // ---------- what a redeem writes, and what the next visit finds ----------

  /** Which answer a redeem gives, in the order of the checks. */
  lemma RedeemAnswers(s: Store, token: Token, live: bool, acquired: Option<string>, now: nat)
    ensures var reply := RedeemReply(s, token, live, acquired, now);
            var valid := token in s.issued && now / 1000 < token.exp;
            var known := valid && token.sub in s.launches;
            var current := known && s.launches[token.sub].tokenJti == Some(token.jti);
            var open := current && now < s.launches[token.sub].expiresAt;
            && (reply.InvalidToken? <==> !valid)
            && (reply.LaunchNotFound? <==> valid && !known)
            && (reply.TokenRevoked? <==> known && !current)
            && (reply.LaunchExpired? <==> current && !open)
            && (reply.ProvisionFailed? <==> open && !(s.launches[token.sub].instanceId.Some? && live) && acquired.None?)
  {
  }

  /** The row after a redeem that was let in: its instance, the time of its first redemption, and nothing else changed. */
  lemma RedeemWrites(s: Store, token: Token, live: bool, acquired: Option<string>, now: nat)
    requires RedeemReply(s, token, live, acquired, now).Admitted?
    ensures var t := Apply(s, Redeem(token, live, acquired, now));
            && token.sub in s.launches && t.launches.Keys == s.launches.Keys && t.issued == s.issued
            && (forall id :: id in s.launches && id != token.sub ==> t.launches[id] == s.launches[id])
            && var row, row' := s.launches[token.sub], t.launches[token.sub];
               && row'.instanceId == (if row.instanceId.Some? && live then row.instanceId else acquired)
               && row'.instanceId.Some?
               && row'.redeemedAt == Some(row.redeemedAt.GetOr(now))
               && row'.tokenJti == row.tokenJti && row'.expiresAt == row.expiresAt
               && row'.tenant == row.tenant && row'.batch == row.batch
  {
  }

  /** As long as its instance is alive, the next visit is let in without acquiring anything, and changes nothing. */
  lemma NextVisitReuses(s: Store, token: Token, live: bool, acquired: Option<string>, now: nat, other: Option<string>, later: nat)
    requires RedeemReply(s, token, live, acquired, now).Admitted?
    requires later / 1000 < token.exp && later < s.launches[token.sub].expiresAt
    ensures var t := Apply(s, Redeem(token, live, acquired, now));
            && RedeemReply(t, token, true, other, later).Admitted?
            && Apply(t, Redeem(token, true, other, later)) == t
  {
    RedeemWrites(s, token, live, acquired, now);
    var t := Apply(s, Redeem(token, live, acquired, now));
    assert t.launches == t.launches[token.sub := t.launches[token.sub]];
  }

  /** A prepared launch is redeemed with the instance that was prepared, and that first visit is the one billed. */
  lemma PreparedIsUsed(s: Store, token: Token, x: string, now: nat, later: nat)
    requires Gate(s, token, later).Admitted? && now < s.launches[token.sub].expiresAt
    requires s.launches[token.sub].redeemedAt.None?
    ensures var t := Apply(s, Prepare(s.launches[token.sub].tenant, token.sub, false, Some(x), now));
            && RedeemReply(t, token, true, None, later).Admitted?
            && var u := Apply(t, Redeem(token, true, None, later));
               && u.launches[token.sub].instanceId == Some(x) && u.launches[token.sub].redeemedAt == Some(later)
               && u.billed == s.billed + [(token.sub, token.jti)]
  {
  }

  // ---------- the routes ----------

  class LaunchStore {
    var launches: map<string, Launch>
    var issued: set<Token>
    var billed: seq<(string, string)>

    constructor ()
      ensures Value() == EMPTY && Sound(Value())
    {
      launches, issued, billed := map[], {}, [];
    }

    function Value(): Store
      reads this
    {
      Store(launches, issued, billed)
    }

    method SignLaunchToken(sub: string, jti: string, ttl: nat, now: nat) returns (token: Token, expiresAt: nat)
      modifies this`issued
      ensures token == Token(sub, jti, Exp(now, ttl)) && expiresAt == token.exp * 1000
      ensures issued == old(issued) + {token}
    {
      var exp := now / 1000 + ttl;
      token := Token(sub, jti, exp);
      issued := issued + {token};
      expiresAt := exp * 1000;
    }

    method CreateLaunch(id: string, jti: string, tenant: string, batch: Option<string>, ttl: nat, now: nat) returns (token: Token)
      modifies this
      ensures Value() == Apply(old(Value()), Create(id, jti, tenant, batch, ttl, now)) && token in issued
      ensures token == Token(id, jti, now / 1000 + ttl)
      ensures launches == old(launches)[id := Launch(tenant, batch, Some(jti), token.exp * 1000, None, None)]
      ensures billed == old(billed)
      ensures ttl > 0 ==> Gate(Value(), token, now).Admitted?
    {
      var expiresAt;
      token, expiresAt := SignLaunchToken(id, jti, ttl, now);
      launches := launches[id := Launch(tenant, batch, Some(jti), expiresAt, None, None)];
    }

    method PreviewUrl(tenant: string, id: string, now: nat) returns (token: Option<Token>)
      modifies this`issued
      ensures Value() == Apply(old(Value()), Preview(tenant, id, now))
      ensures token.Some? <==> id in launches && launches[id].tenant == tenant && launches[id].tokenJti.Some?
      ensures token.Some? ==> token == Some(Token(id, launches[id].tokenJti.value, now / 1000 + 300))
      ensures token.Some? ==> (Gate(Value(), token.value, now).Admitted? <==> now < launches[id].expiresAt)
    {
      if id !in launches || launches[id].tenant != tenant { return None; }
      if launches[id].tokenJti.None? { return None; }
      var t, _ := SignLaunchToken(id, launches[id].tokenJti.value, PREVIEW_TTL, now);
      token := Some(t);
    }

    method RegenerateLaunch(tenant: string, id: string, jti: string, ttlHours: Option<nat>, now: nat) returns (token: Option<Token>)
      modifies this
      ensures Value() == Apply(old(Value()), Regenerate(tenant, id, jti, ttlHours, now))
      ensures token.Some? <==> id in old(launches) && old(launches)[id].tenant == tenant
      ensures token.Some? ==> token.value == Token(id, jti, now / 1000 + ttlHours.GetOr(720) * 3600)
      ensures token.Some? ==> launches == old(launches)[id := old(launches)[id].(
                tokenJti := Some(jti), expiresAt := token.value.exp * 1000, redeemedAt := None)]
      ensures token.None? ==> Value() == old(Value())
      ensures token.Some? && ttlHours != Some(0) ==> Gate(Value(), token.value, now).Admitted?
    {
      if id !in launches || launches[id].tenant != tenant { return None; }
      var ttl := ttlHours.GetOr(720) * 3600;
      var t, expiresAt := SignLaunchToken(id, jti, ttl, now);
      launches := launches[id := launches[id].(tokenJti := Some(jti), expiresAt := expiresAt, redeemedAt := None)];
      token := Some(t);
    }

    method RevokeLaunch(tenant: string, id: string, now: nat) returns (ok: bool)
      modifies this`launches
      ensures Value() == Apply(old(Value()), Revoke(tenant, id, now))
      ensures ok <==> id in old(launches) && old(launches)[id].tenant == tenant
      ensures launches == if ok then old(launches)[id := old(launches)[id].(tokenJti := None, expiresAt := now)] else old(launches)
      ensures ok ==> forall token: Token, later: nat :: token.sub == id ==> !Gate(Value(), token, later).Admitted?
    {
      if id !in launches || launches[id].tenant != tenant { return false; }
      launches := launches[id := launches[id].(tokenJti := None, expiresAt := now)];
      ok := true;
    }

    method PrepareLaunch(tenant: string, id: string, live: bool, acquired: Option<string>, now: nat) returns (ok: bool)
      modifies this`launches
      ensures Value() == Apply(old(Value()), Prepare(tenant, id, live, acquired, now))
      ensures ok <==> id in old(launches) && old(launches)[id].tenant == tenant && now < old(launches)[id].expiresAt
                      && ((old(launches)[id].instanceId.Some? && live) || acquired.Some?)
      ensures ok ==> launches == old(launches)[id := old(launches)[id].(
                instanceId := if old(launches)[id].instanceId.Some? && live then old(launches)[id].instanceId else acquired)]
      ensures !ok ==> launches == old(launches)
    {
      if id !in launches || launches[id].tenant != tenant { return false; }
      if launches[id].expiresAt <= now { return false; }
      if !(launches[id].instanceId.Some? && live) {
        if acquired.None? { return false; }
        launches := launches[id := launches[id].(instanceId := acquired)];
      }
      ok := true;
    }

    method RedeemLaunch(token: Token, live: bool, acquired: Option<string>, now: nat) returns (reply: Reply)
      modifies this
      ensures Value() == Apply(old(Value()), Redeem(token, live, acquired, now))
      ensures reply == RedeemReply(old(Value()), token, live, acquired, now)
      ensures !reply.Admitted? ==> Value() == old(Value())
      ensures reply.Admitted? ==>
                token.sub in old(launches) && launches == old(launches)[token.sub := old(launches)[token.sub].(
                  instanceId := if old(launches)[token.sub].instanceId.Some? && live then old(launches)[token.sub].instanceId
                                else acquired,
                  redeemedAt := Some(old(launches)[token.sub].redeemedAt.GetOr(now)))]
      ensures reply.Admitted? ==> launches[token.sub].instanceId.Some?
      ensures reply.Admitted? ==>
                billed == old(billed) + if old(launches)[token.sub].redeemedAt.None? then [(token.sub, token.jti)] else []
    {
      if token !in issued || token.exp <= now / 1000 { return InvalidToken; }
      if token.sub !in launches { return LaunchNotFound; }
      var launch := launches[token.sub];
      if launch.tokenJti != Some(token.jti) { return TokenRevoked; }
      if launch.expiresAt <= now { return LaunchExpired; }
      if launch.instanceId.None? || !live {
        if acquired.None? { return ProvisionFailed; }
        launches := launches[token.sub := launch.(instanceId := acquired, redeemedAt := Some(launch.redeemedAt.GetOr(now)))];
        if launch.redeemedAt.None? { billed := billed + [(token.sub, token.jti)]; }
      } else if launch.redeemedAt.None? {
        launches := launches[token.sub := launch.(redeemedAt := Some(now))];
        billed := billed + [(token.sub, token.jti)];
      }
      assert launches == Apply(old(Value()), Redeem(token, live, acquired, now)).launches;
      reply := Admitted;
    }

    /** updateMany over the seats of a batch that nobody has redeemed. */
    method RevokeUnredeemedSeats(tenant: string, batch: string, now: nat) returns (revoked: nat)
      modifies this`launches
      ensures Value() == Apply(old(Value()), RevokeUnredeemed(tenant, batch, now))
      ensures revoked == |set id | id in launches && InBatch(launches[id], tenant, batch) && launches[id].redeemedAt.None?|
      ensures launches.Keys == old(launches.Keys)
      ensures forall id :: id in launches ==>
                launches[id] == if old(launches)[id].tenant == tenant && old(launches)[id].batch == Some(batch)
                                   && old(launches)[id].redeemedAt.None?
                                then old(launches)[id].(tokenJti := None, expiresAt := now) else old(launches)[id]
    {
      var hit := set id | id in launches && InBatch(launches[id], tenant, batch) && launches[id].redeemedAt.None?;
      launches := map id | id in launches :: if id in hit then Revoked(launches[id], now) else launches[id];
      assert hit == set id | id in launches && InBatch(launches[id], tenant, batch) && launches[id].redeemedAt.None?;
      revoked := |hit|;
    }

    method RevokeBatch(tenant: string, batch: string, now: nat)
      modifies this`launches
      ensures Value() == Apply(old(Value()), TerminateBatch(tenant, batch, now))
      ensures launches.Keys == old(launches.Keys)
      ensures forall id :: id in launches ==>
                launches[id] == if old(launches)[id].tenant == tenant && old(launches)[id].batch == Some(batch)
                                then old(launches)[id].(tokenJti := None, expiresAt := now) else old(launches)[id]
      ensures forall token: Token, later: nat ::
                token.sub in launches && InBatch(launches[token.sub], tenant, batch) ==> !Gate(Value(), token, later).Admitted?
    {
      launches := map id | id in launches ::
        if InBatch(launches[id], tenant, batch) then Revoked(launches[id], now) else launches[id];
    }

    /** One transaction over the seats; a seat that was revoked stays revoked. */
    method ExtendSeats(tenant: string, batch: string, hours: nat) returns (found: bool)
      modifies this`launches
      ensures Value() == Apply(old(Value()), ExtendBatch(tenant, batch, hours))
      ensures launches.Keys == old(launches.Keys)
      ensures forall id :: id in launches ==>
                launches[id] == if old(launches)[id].tenant == tenant && old(launches)[id].batch == Some(batch)
                                then old(launches)[id].(expiresAt := old(launches)[id].expiresAt + hours * 3600000)
                                else old(launches)[id]
      ensures found <==> exists id :: id in launches && launches[id].tenant == tenant && launches[id].batch == Some(batch)
    {
      var seats := set id | id in launches && InBatch(launches[id], tenant, batch);
      found := seats != {};
      launches := map id | id in launches ::
        if id in seats then launches[id].(expiresAt := launches[id].expiresAt + hours * 3600000) else launches[id];
    }
  }
}
