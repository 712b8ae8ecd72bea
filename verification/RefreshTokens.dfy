/**
 * Refresh-token families: each login starts a family, each refresh replaces its live token by a new
 * one, and presenting a token that was already used closes the family for good.
 */
module RefreshTokens {
  import opened Common

  /** Tokens are identified by their position in the table; `expiresAt` is the last moment of use. */
  datatype Token = Token(user: Id, family: Id, revoked: bool, replacedBy: Option<Id>, expiresAt: Time)

  /** `families` counts the families handed out so far. */
  datatype State = State(tokens: seq<Token>, families: nat)

  // ------------------------------------------------------------- operations

  function Revoked(t: Token): Token {
    t.(revoked := true)
  }

  /** `updateMany` over the live tokens of a family. */
  function RevokeFamily(tokens: seq<Token>, family: Id): (r: seq<Token>)
    ensures |r| == |tokens|
    ensures forall i :: 0 <= i < |tokens| ==> r[i] == if tokens[i].family == family
                                              then Revoked(tokens[i]) else tokens[i]
  {
    seq(|tokens|, i requires 0 <= i < |tokens| => if tokens[i].family == family then Revoked(tokens[i]) else tokens[i])
  }

  function RevokeUser(tokens: seq<Token>, user: Id): (r: seq<Token>)
    ensures |r| == |tokens|
    ensures forall i :: 0 <= i < |tokens| ==> r[i] == if tokens[i].user == user then Revoked(tokens[i]) else tokens[i]
  {
    seq(|tokens|, i requires 0 <= i < |tokens| => if tokens[i].user == user then Revoked(tokens[i]) else tokens[i])
  }

  function RevokeOne(tokens: seq<Token>, id: Id): seq<Token> {
    if id < |tokens| then tokens[id := Revoked(tokens[id])] else tokens
  }

  /** A login or registration starts a family of one. */
  function Issue(s: State, user: Id, expiresAt: Time): State {
    State(s.tokens + [Token(user, s.families, false, None, expiresAt)], s.families + 1)
  }

  function Rotate(tokens: seq<Token>, id: Id, expiresAt: Time): seq<Token>
    requires id < |tokens|
  {
    tokens[id := tokens[id].(revoked := true, replacedBy := Some(|tokens|))]
    + [Token(tokens[id].user, tokens[id].family, false, None, expiresAt)]
  }

  /** `refresh` with a presented token; an unknown one is refused without effect. */
  function Refresh(s: State, id: Id, now: Time, active: bool, expiresAt: Time): State {
    if id >= |s.tokens| then s
    else
      var t := s.tokens[id];
      if t.revoked then s.(tokens := RevokeFamily(s.tokens, t.family))
      else if t.expiresAt < now then s.(tokens := RevokeOne(s.tokens, id))
      else if !active then s.(tokens := RevokeFamily(s.tokens, t.family))
      else s.(tokens := Rotate(s.tokens, id, expiresAt))
  }

  datatype Step =
    | IssueStep(user: Id, expiresAt: Time)
    | RefreshStep(id: Id, now: Time, active: bool, expiresAt: Time)
    | LogoutStep(id: Id)
    | LogoutAllStep(user: Id)      // logout without a token, and password reset

  function Next(s: State, step: Step): State {
    match step
    case IssueStep(user, expiresAt) => Issue(s, user, expiresAt)
    case RefreshStep(id, now, active, expiresAt) => Refresh(s, id, now, active, expiresAt)
    case LogoutStep(id) => s.(tokens := RevokeOne(s.tokens, id))
    case LogoutAllStep(user) => s.(tokens := RevokeUser(s.tokens, user))
  }

  function Run(s: State, steps: seq<Step>): State {
    if |steps| == 0 then s else Next(Run(s, steps[..|steps| - 1]), steps[|steps| - 1])
  }

  // -------------------------------------------------------------- invariant

  /** Nothing of `family` from position `from` up to `to`. */
  predicate Absent(tokens: seq<Token>, family: Id, from: nat, to: nat)
    requires to <= |tokens|
  {
    forall k :: from <= k < to ==> tokens[k].family != family
  }

  /** `replacedBy` names the next token of the family, of the same user; only a replaced or revoked token has one. */
  predicate LinkGood(tokens: seq<Token>, i: nat)
    requires i < |tokens|
  {
    var t := tokens[i];
    match t.replacedBy
    case None => Absent(tokens, t.family, i + 1, |tokens|)
    case Some(j) =>
      && i < j < |tokens| && t.revoked
      && tokens[j].family == t.family && tokens[j].user == t.user
      && Absent(tokens, t.family, i + 1, j)
  }

  predicate Started(tokens: seq<Token>, family: Id) {
    exists i :: 0 <= i < |tokens| && tokens[i].family == family
  }

  predicate TInv(s: State) {
    && (forall i :: 0 <= i < |s.tokens| ==> LinkGood(s.tokens, i))
    && (forall i :: 0 <= i < |s.tokens| ==> s.tokens[i].family < s.families)
    && (forall f :: 0 <= f < s.families ==> Started(s.tokens, f))
  }

  /** Changing only `revoked` flags, and only upwards, keeps every link. */
  lemma {:induction false} RevokingKeeps(s: State, after: seq<Token>)
    requires TInv(s) && |after| == |s.tokens|
    requires forall i :: 0 <= i < |after| ==> after[i] == s.tokens[i] || after[i] == Revoked(s.tokens[i])
    ensures TInv(s.(tokens := after))
  {
    forall i | 0 <= i < |after| ensures LinkGood(after, i) {
      assert LinkGood(s.tokens, i);
    }
    forall f | 0 <= f < s.families ensures Started(after, f) {
      assert Started(s.tokens, f);
      var i :| 0 <= i < |s.tokens| && s.tokens[i].family == f;
      assert after[i].family == f;
    }
  }

  lemma {:induction false} IssueKeeps(s: State, user: Id, expiresAt: Time)
    requires TInv(s)
    ensures TInv(Issue(s, user, expiresAt))
  {
    var t := Issue(s, user, expiresAt);
    forall i | 0 <= i < |t.tokens| ensures LinkGood(t.tokens, i) {
      if i < |s.tokens| {
        assert LinkGood(s.tokens, i);
      }
    }
    forall f | 0 <= f < t.families ensures Started(t.tokens, f) {
      if f == s.families {
        assert t.tokens[|s.tokens|].family == f;
      } else {
        assert Started(s.tokens, f);
        var i :| 0 <= i < |s.tokens| && s.tokens[i].family == f;
        assert t.tokens[i].family == f;
      }
    }
  }

  /** A live token is the last of its family. */
  lemma {:induction false} LiveIsLast(s: State, i: nat)
    requires TInv(s) && i < |s.tokens| && !s.tokens[i].revoked
    ensures s.tokens[i].replacedBy.None? && Absent(s.tokens, s.tokens[i].family, i + 1, |s.tokens|)
  {
    assert LinkGood(s.tokens, i);
  }

  lemma {:induction false} RotateKeeps(s: State, id: Id, expiresAt: Time)
    requires TInv(s) && id < |s.tokens| && !s.tokens[id].revoked
    ensures TInv(s.(tokens := Rotate(s.tokens, id, expiresAt)))
  {
    var after := Rotate(s.tokens, id, expiresAt);
    LiveIsLast(s, id);
    forall i | 0 <= i < |after| ensures LinkGood(after, i) {
      if i < |s.tokens| {
        assert LinkGood(s.tokens, i);
        assert s.tokens[i].replacedBy.None? && s.tokens[i].family == s.tokens[id].family ==> i == id;
      }
    }
    forall f | 0 <= f < s.families ensures Started(after, f) {
      assert Started(s.tokens, f);
      var i :| 0 <= i < |s.tokens| && s.tokens[i].family == f;
      assert after[i].family == f;
    }
  }

  lemma {:induction false} StepKeepsInv(s: State, step: Step)
    requires TInv(s)
    ensures TInv(Next(s, step))
  {
    hide TInv;
    match step
    case IssueStep(user, expiresAt) => IssueKeeps(s, user, expiresAt);
    case RefreshStep(id, now, active, expiresAt) =>
      if id < |s.tokens| && !s.tokens[id].revoked && s.tokens[id].expiresAt >= now && active {
        RotateKeeps(s, id, expiresAt);
      } else {
        RevokingKeeps(s, Next(s, step).tokens);
      }
    case _ => RevokingKeeps(s, Next(s, step).tokens);
  }

  lemma {:induction false} RunKeepsInv(steps: seq<Step>)
    ensures TInv(Run(State([], 0), steps))
  {
    hide Next;
    if |steps| == 0 {
    } else {
      RunKeepsInv(steps[..|steps| - 1]);
      StepKeepsInv(Run(State([], 0), steps[..|steps| - 1]), steps[|steps| - 1]);
    }
  }

  // ------------------------------------------------------------ one chain

  /** `j` is reached from `i` by following `replacedBy`. */
  predicate Reaches(tokens: seq<Token>, i: nat, j: nat)
    decreases |tokens| - i
  {
    i == j || (i < |tokens| && tokens[i].replacedBy.Some? && tokens[i].replacedBy.value > i
        && Reaches(tokens, tokens[i].replacedBy.value, j))
  }

  lemma {:induction false} LaterIsReached(s: State, i: nat, j: nat)
    requires TInv(s) && i <= j < |s.tokens| && s.tokens[i].family == s.tokens[j].family
    ensures Reaches(s.tokens, i, j)
    decreases j - i
  {
    if i < j {
      assert LinkGood(s.tokens, i);
      LaterIsReached(s, s.tokens[i].replacedBy.value, j);
    }
  }

  /**
   * In every run each family's tokens form one chain along `replacedBy`: of any two, the later is
   * reached from the earlier; exactly one token has no successor, and only it can be live.
   */
  lemma {:induction false} FamiliesAreChains(steps: seq<Step>, family: Id)
    requires family < Run(State([], 0), steps).families
    ensures var tokens := Run(State([], 0), steps).tokens;
            && (forall i, j :: 0 <= i <= j < |tokens| && tokens[i].family == family && tokens[j].family == family ==>
                 Reaches(tokens, i, j))
            && (exists tail :: 0 <= tail < |tokens| && tokens[tail].family == family && tokens[tail].replacedBy.None?
                  && (forall i :: 0 <= i < |tokens| && tokens[i].family == family && i != tail ==>
                       tokens[i].replacedBy.Some? && tokens[i].revoked))
  {
    RunKeepsInv(steps);
    var s := Run(State([], 0), steps);
    forall i, j | 0 <= i <= j < |s.tokens| && s.tokens[i].family == family && s.tokens[j].family == family
      ensures Reaches(s.tokens, i, j)
    {
      LaterIsReached(s, i, j);
    }
    assert Started(s.tokens, family);
    var some :| 0 <= some < |s.tokens| && s.tokens[some].family == family;
    var tail := TailOf(s, some);
    forall i | 0 <= i < |s.tokens| && s.tokens[i].family == family && i != tail
      ensures s.tokens[i].replacedBy.Some? && s.tokens[i].revoked
    {
      assert LinkGood(s.tokens, i) && LinkGood(s.tokens, tail);
    }
  }

  function TailOf(s: State, i: nat): (tail: nat)
    requires TInv(s) && i < |s.tokens|
    ensures tail < |s.tokens| && s.tokens[tail].family == s.tokens[i].family && s.tokens[tail].replacedBy.None?
    decreases |s.tokens| - i
  {
    assert LinkGood(s.tokens, i);
    if s.tokens[i].replacedBy.None? then i else TailOf(s, s.tokens[i].replacedBy.value)
  }

  /** At most one live token per family, in every run. */
  lemma {:induction false} AtMostOneLive(steps: seq<Step>, i: nat, j: nat)
    requires var tokens := Run(State([], 0), steps).tokens;
             i < |tokens| && j < |tokens| && tokens[i].family == tokens[j].family && !tokens[i].revoked
                 && !tokens[j].revoked
    ensures i == j
  {
    RunKeepsInv(steps);
    var s := Run(State([], 0), steps);
    LiveIsLast(s, i);
    LiveIsLast(s, j);
    assert !(i < j) && !(j < i);
  }

  // -------------------------------------------------------- theft detection

  predicate Dead(s: State, family: Id) {
    forall i :: 0 <= i < |s.tokens| && s.tokens[i].family == family ==> s.tokens[i].revoked
  }

  function Count(tokens: seq<Token>, family: Id): nat {
    if |tokens| == 0 then 0
    else Count(tokens[..|tokens| - 1], family) + (if tokens[|tokens| - 1].family == family then 1 else 0)
  }

  lemma {:induction false} SameFamiliesSameCount(before: seq<Token>, after: seq<Token>, family: Id)
    requires |before| <= |after|
    requires forall i :: 0 <= i < |before| ==> after[i].family == before[i].family
    requires forall i :: |before| <= i < |after| ==> after[i].family != family
    ensures Count(after, family) == Count(before, family)
  {
    if |after| == 0 {
    } else {
      if |after| == |before| {
        SameFamiliesSameCount(before[..|before| - 1], after[..|after| - 1], family);
      } else {
        SameFamiliesSameCount(before, after[..|after| - 1], family);
      }
    }
  }

  lemma {:induction false} DeadStaysDead(s: State, step: Step, family: Id)
    requires family < s.families && Dead(s, family)
    ensures family < Next(s, step).families && Dead(Next(s, step), family)
    ensures Count(Next(s, step).tokens, family) == Count(s.tokens, family)
  {
    SameFamiliesSameCount(s.tokens, Next(s, step).tokens, family);
  }

  lemma {:induction false} DeadForever(s: State, steps: seq<Step>, family: Id)
    requires family < s.families && Dead(s, family)
    ensures family < Run(s, steps).families && Dead(Run(s, steps), family)
    ensures Count(Run(s, steps).tokens, family) == Count(s.tokens, family)
  {
    hide Next, Dead;
    if |steps| == 0 {
    } else {
      DeadForever(s, steps[..|steps| - 1], family);
      DeadStaysDead(Run(s, steps[..|steps| - 1]), steps[|steps| - 1], family);
    }
  }

  /**
   * Presenting a token that was already used or revoked closes its family: no token of it is live then,
   * none is after any later steps, and no token is ever added to it.
   */
  lemma {:induction false} ReuseClosesFamily(before: seq<Step>, id: Id, now: Time, active: bool, expiresAt: Time,
      after: seq<Step>)
    requires var s := Run(State([], 0), before); id < |s.tokens| && s.tokens[id].revoked
    ensures var s := Run(State([], 0), before);
            var t := Refresh(s, id, now, active, expiresAt);
            && Dead(t, s.tokens[id].family)
            && Dead(Run(t, after), s.tokens[id].family)
            && Count(Run(t, after).tokens, s.tokens[id].family) == Count(s.tokens, s.tokens[id].family)
  {
    RunKeepsInv(before);
    var s := Run(State([], 0), before);
    var t := Refresh(s, id, now, active, expiresAt);
    DeadForever(t, after, s.tokens[id].family);
    SameFamiliesSameCount(s.tokens, t.tokens, s.tokens[id].family);
  }

  /** A refresh is granted exactly to a live, unexpired token of an active user, and then spends it. */
  lemma {:induction false} RefreshGrantedExactly(s: State, id: Id, now: Time, active: bool, expiresAt: Time)
    ensures var t := Refresh(s, id, now, active, expiresAt);
            && (|t.tokens| > |s.tokens| <==> id < |s.tokens| && !s.tokens[id].revoked
                                             && now <= s.tokens[id].expiresAt && active)
            && (|t.tokens| > |s.tokens| ==>
                  && t.tokens[id].revoked && t.tokens[id].replacedBy == Some(|s.tokens|)
                  && !t.tokens[|s.tokens|].revoked && t.tokens[|s.tokens|].family == s.tokens[id].family
                  && Dead(Refresh(t, id, now, active, expiresAt), s.tokens[id].family))
  {
  }

  /** A spent or revoked token is never touched again. */
  lemma {:induction false} RevokedForever(s: State, steps: seq<Step>, id: Id)
    requires id < |s.tokens| && s.tokens[id].revoked
    ensures id < |Run(s, steps).tokens| && Run(s, steps).tokens[id] == s.tokens[id]
  {
    if |steps| == 0 {
    } else {
      RevokedForever(s, steps[..|steps| - 1], id);
    }
  }

  /** The presented token was exchanged for a new one. */
  predicate Granted(s: State, t: State) {
    |t.tokens| > |s.tokens|
  }

  /**
   * Each token is exchanged at most once: once it was, then after any further steps it still names its
   * one successor, and presenting it again grants nothing and closes the family.
   */
  lemma {:induction false} ExchangedOnce(s: State, id: Id, first: Step, steps: seq<Step>, again: Step)
    requires first.RefreshStep? && again.RefreshStep? && first.id == again.id == id
    requires Granted(s, Next(s, first))
    ensures var t := Run(Next(s, first), steps);
            && id < |t.tokens| && t.tokens[id].replacedBy == Some(|s.tokens|)
            && !Granted(t, Next(t, again)) && Dead(Next(t, again), t.tokens[id].family)
  {
    RefreshGrantedExactly(s, id, first.now, first.active, first.expiresAt);
    RevokedForever(Next(s, first), steps, id);
  }

  /** The tokens that fulfil a condition are revoked; every other is as it was, and none is added. */
  predicate OnlyRevoked(s: State, t: State, marked: set<Id>) {
    && t.families == s.families && |t.tokens| == |s.tokens|
    && forall i :: 0 <= i < |s.tokens| ==>
         t.tokens[i] == if i in marked then s.tokens[i].(revoked := true) else s.tokens[i]
  }

  function OfFamily(s: State, family: Id): set<Id> {
    set i: Id | i < |s.tokens| && s.tokens[i].family == family
  }

  function OfUser(s: State, user: Id): set<Id> {
    set i: Id | i < |s.tokens| && s.tokens[i].user == user
  }

  /**
   * What becomes of the tokens when one is presented: an unknown one does nothing; a spent or revoked one closes its
   * family; an overdue one is revoked alone; one of a suspended user closes its family; and any other is exchanged
   * for a new token of the same user and family.
   */
  lemma {:induction false} RefreshExactly(s: State, id: Id, now: Time, active: bool, expiresAt: Time)
    ensures var t := Next(s, RefreshStep(id, now, active, expiresAt));
            if id >= |s.tokens| then t == s
            else
              var x := s.tokens[id];
              if x.revoked then OnlyRevoked(s, t, OfFamily(s, x.family))
              else if now > x.expiresAt then OnlyRevoked(s, t, {id})
              else if !active then OnlyRevoked(s, t, OfFamily(s, x.family))
              else
                && t.families == s.families && |t.tokens| == |s.tokens| + 1
                && t.tokens[|s.tokens|] == Token(x.user, x.family, false, None, expiresAt)
                && t.tokens[id] == Token(x.user, x.family, true, Some(|s.tokens|), x.expiresAt)
                && forall i :: 0 <= i < |s.tokens| && i != id ==> t.tokens[i] == s.tokens[i]
  {
  }

  /** A login starts a family of its own; logging out ends one token, or with a user all of the user's. */
  lemma {:induction false} SessionsExactly(s: State, id: Id, user: Id, expiresAt: Time)
    ensures var t := Next(s, IssueStep(user, expiresAt));
            t.families == s.families + 1 && t.tokens == s.tokens + [Token(user, s.families, false, None, expiresAt)]
    ensures OnlyRevoked(s, Next(s, LogoutStep(id)), {id})
    ensures OnlyRevoked(s, Next(s, LogoutAllStep(user)), OfUser(s, user))
  {
  }
}
