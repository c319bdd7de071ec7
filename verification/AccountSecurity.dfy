/** Session revocation by the account-security handlers (`backend/app/api/account_security.py`). */
module AccountSecurity {
  import opened Wrappers

  datatype HttpError = BadRequest400 | Unauthorized401 | Forbidden403 | NotFound404 | TooMany429

  datatype Outcome = Done(revoked: nat) | Refused(error: HttpError)

  datatype Session = Session(
    id: string, userId: string, revokedAt: Option<real>, mfaVerifiedAt: Option<real>, stepUpAt: Option<real>)

  /** What a sweep does to the session that asks for it, while revoking the user's other open ones. */
  datatype Mark = MfaAndStepUp | ClearMfa | StepUpOnly

  function Marked(s: Session, mark: Mark, now: real): Session {
    match mark
    case MfaAndStepUp => s.(mfaVerifiedAt := Some(now), stepUpAt := Some(now))
    case ClearMfa => s.(mfaVerifiedAt := None)
    case StepUpOnly => s.(stepUpAt := Some(now))
  }

  predicate Open(s: Session, userId: string) {
    s.userId == userId && s.revokedAt.None?
  }

  function SweptSession(s: Session, userId: string, current: Option<string>, mark: Mark, now: real): Session {
    if !Open(s, userId) then s
    else if current == Some(s.id) then Marked(s, mark, now)
    else s.(revokedAt := Some(now))
  }

  function Swept(rows: seq<Session>, userId: string, current: Option<string>, mark: Mark, now: real): seq<Session> {
    seq(|rows|, i requires 0 <= i < |rows| => SweptSession(rows[i], userId, current, mark, now))
  }

  function RevokedIf(s: Session, revoke: bool, now: real): Session {
    if revoke then s.(revokedAt := Some(now)) else s
  }

  predicate OpenElsewhere(s: Session, userId: string, current: string) {
    Open(s, userId) && s.id != current
  }

  function OthersRevoked(rows: seq<Session>, userId: string, current: string, now: real): seq<Session> {
    seq(|rows|, i requires 0 <= i < |rows| => RevokedIf(rows[i], OpenElsewhere(rows[i], userId, current), now))
  }

  function CountElsewhere(rows: seq<Session>, userId: string, current: string): nat {
    if rows == [] then 0
    else CountElsewhere(rows[..|rows| - 1], userId, current)
         + (if OpenElsewhere(rows[|rows| - 1], userId, current) then 1 else 0)
  }

  function OneRevoked(rows: seq<Session>, userId: string, id: string, now: real): seq<Session> {
    seq(|rows|, i requires 0 <= i < |rows| => RevokedIf(rows[i], Open(rows[i], userId) && rows[i].id == id, now))
  }

  // ---------- what the handlers do ----------

  /** The second factor asked for when a password is changed. */
  datatype Factor = NotEnrolled | CodeMissing | CodeWrong | CodeRight

  /** Each operation carries what its checks found. */
  datatype Operation =
    | ConfirmMfa(rateAllowed: bool, codeAccepted: bool)
    | RemoveMfa(accepted: bool)
    | ChangePassword(rateAllowed: bool, passwordRight: bool, samePassword: bool, factor: Factor)
    | RevokeOthers
    | RevokeOne(id: string)

  datatype Request = Request(userId: string, current: Option<string>, now: real)

  function OutcomeOf(rows: seq<Session>, r: Request, op: Operation): Outcome {
    match op
    case ConfirmMfa(rateAllowed, codeAccepted) =>
      if !rateAllowed then Refused(TooMany429) else if !codeAccepted then Refused(BadRequest400) else Done(0)
    case RemoveMfa(accepted) =>
      if !accepted then Refused(Forbidden403) else Done(0)
    case ChangePassword(rateAllowed, passwordRight, samePassword, factor) =>
      if !rateAllowed then Refused(TooMany429)
      else if !passwordRight then Refused(Unauthorized401)
      else if samePassword then Refused(BadRequest400)
      else if factor == CodeMissing || factor == CodeWrong then Refused(Unauthorized401)
      else Done(0)
    case RevokeOthers =>
      if r.current.None? then Refused(Unauthorized401) else Done(CountElsewhere(rows, r.userId, r.current.value))
    case RevokeOne(id) =>
      if exists i :: 0 <= i < |rows| && rows[i].id == id && rows[i].userId == r.userId then Done(0) else Refused(NotFound404)
  }

  function After(rows: seq<Session>, r: Request, op: Operation): seq<Session> {
    if OutcomeOf(rows, r, op).Refused? then rows
    else match op
      case ConfirmMfa(_, _) => Swept(rows, r.userId, r.current, MfaAndStepUp, r.now)
      case RemoveMfa(_) => Swept(rows, r.userId, r.current, ClearMfa, r.now)
      case ChangePassword(_, _, _, _) => Swept(rows, r.userId, r.current, StepUpOnly, r.now)
      case RevokeOthers => OthersRevoked(rows, r.userId, r.current.value, r.now)
      case RevokeOne(id) => OneRevoked(rows, r.userId, id, r.now)
  }

  // ---------- the handlers, on stored records ----------

  class AuthSession {
    const id: string
    const userId: string
    var revokedAt: Option<real>
    var mfaVerifiedAt: Option<real>
    var stepUpAt: Option<real>

    function Value(): Session
      reads this
    {
      Session(id, userId, revokedAt, mfaVerifiedAt, stepUpAt)
    }

    constructor (s: Session)
      ensures Value() == s
    {
      id, userId, revokedAt, mfaVerifiedAt, stepUpAt := s.id, s.userId, s.revokedAt, s.mfaVerifiedAt, s.stepUpAt;
    }
  }

  class SessionTable {
    const rows: seq<AuthSession>

    /** Ids are unique, so no record occurs twice. */
    ghost predicate Valid() {
      forall i, j :: 0 <= i < j < |rows| ==> rows[i].id != rows[j].id
    }

    function Value(): seq<Session>
      reads rows
    {
      seq(|rows|, i requires 0 <= i < |rows| reads rows => rows[i].Value())
    }

    constructor (rows: seq<AuthSession>)
      ensures this.rows == rows
    {
      this.rows := rows;
    }

    /** The loop that MFA confirmation, MFA removal and the password change share but for the mark. */
    method Sweep(userId: string, current: Option<string>, mark: Mark, now: real)
      requires Valid()
      modifies rows
      ensures Value() == Swept(old(Value()), userId, current, mark, now)
    {
      for i := 0 to |rows|
        invariant forall k :: 0 <= k < i ==> rows[k].Value() == SweptSession(old(rows[k].Value()), userId, current, mark, now)
        invariant forall k :: i <= k < |rows| ==> rows[k].Value() == old(rows[k].Value())
      {
        var session := rows[i];
        if session.userId == userId && session.revokedAt.None? {
          if current == Some(session.id) {
            match mark
            case MfaAndStepUp =>
              session.mfaVerifiedAt := Some(now);
              session.stepUpAt := Some(now);
            case ClearMfa =>
              session.mfaVerifiedAt := None;
            case StepUpOnly =>
              session.stepUpAt := Some(now);
          } else {
            session.revokedAt := Some(now);
          }
        }
      }
    }

    method HandleConfirmMfa(r: Request, rateAllowed: bool, codeAccepted: bool) returns (outcome: Outcome)
      requires Valid()
      modifies rows
      ensures outcome == OutcomeOf(old(Value()), r, ConfirmMfa(rateAllowed, codeAccepted))
      ensures Value() == After(old(Value()), r, ConfirmMfa(rateAllowed, codeAccepted))
    {
      if !rateAllowed {
        return Refused(TooMany429);
      }
      if !codeAccepted {
        return Refused(BadRequest400);
      }
      Sweep(r.userId, r.current, MfaAndStepUp, r.now);
      return Done(0);
    }

    method HandleRemoveMfa(r: Request, accepted: bool) returns (outcome: Outcome)
      requires Valid()
      modifies rows
      ensures outcome == OutcomeOf(old(Value()), r, RemoveMfa(accepted))
      ensures Value() == After(old(Value()), r, RemoveMfa(accepted))
    {
      if !accepted {
        return Refused(Forbidden403);
      }
      Sweep(r.userId, r.current, ClearMfa, r.now);
      return Done(0);
    }

    method HandleChangePassword(r: Request, rateAllowed: bool, passwordRight: bool, samePassword: bool, factor: Factor)
      returns (outcome: Outcome)
      requires Valid()
      modifies rows
      ensures outcome == OutcomeOf(old(Value()), r, ChangePassword(rateAllowed, passwordRight, samePassword, factor))
      ensures Value() == After(old(Value()), r, ChangePassword(rateAllowed, passwordRight, samePassword, factor))
    {
      if !rateAllowed {
        return Refused(TooMany429);
      }
      if !passwordRight {
        return Refused(Unauthorized401);
      }
      if samePassword {
        return Refused(BadRequest400);
      }
      if factor == CodeMissing || factor == CodeWrong {
        return Refused(Unauthorized401);
      }
      Sweep(r.userId, r.current, StepUpOnly, r.now);
      return Done(0);
    }

    method HandleRevokeOthers(r: Request) returns (outcome: Outcome)
      requires Valid()
      modifies rows
      ensures outcome == OutcomeOf(old(Value()), r, RevokeOthers)
      ensures Value() == After(old(Value()), r, RevokeOthers)
    {
      if r.current.None? {
        return Refused(Unauthorized401);
      }
      ghost var before := Value();
      var count := 0;
      for i := 0 to |rows|
        invariant count == CountElsewhere(before[..i], r.userId, r.current.value)
        invariant forall k :: 0 <= k < i ==>
          rows[k].Value() == RevokedIf(before[k], OpenElsewhere(before[k], r.userId, r.current.value), r.now)
        invariant forall k :: i <= k < |rows| ==> rows[k].Value() == before[k]
      {
        assert before[..i + 1][..i] == before[..i];
        var item := rows[i];
        assert item.Value() == before[i];
        if item.userId == r.userId && item.revokedAt.None? && item.id != r.current.value {
          item.revokedAt := Some(r.now);
          count := count + 1;
        }
      }
      assert before[..|rows|] == before;
      return Done(count);
    }

    method HandleRevokeOne(r: Request, id: string) returns (outcome: Outcome)
      requires Valid()
      modifies rows
      ensures outcome == OutcomeOf(old(Value()), r, RevokeOne(id))
      ensures Value() == After(old(Value()), r, RevokeOne(id))
    {
      ghost var before := Value();
      for i := 0 to |rows|
        invariant Value() == before
        invariant forall k :: 0 <= k < i ==> !(before[k].id == id && before[k].userId == r.userId)
      {
        assert rows[i].Value() == before[i];
        if rows[i].id == id && rows[i].userId == r.userId {
          if rows[i].revokedAt.None? {
            rows[i].revokedAt := Some(r.now);
          }
          assert before[i].id == id && before[i].userId == r.userId;
          assert forall k :: 0 <= k < |rows| && k != i ==> before[k].id == rows[k].id != id;
          return Done(0);
        }
      }
      return Refused(NotFound404);
    }
  }

  // ---------- what a sweep leaves ----------

  predicate IsSweep(op: Operation) {
    !op.RevokeOne?
  }

  /** After a successful sweep the only open session of the user, if any, is the current one, if it was open before. */
  lemma SweepLeavesOnlyCurrent(rows: seq<Session>, r: Request, op: Operation, i: nat)
    requires IsSweep(op) && OutcomeOf(rows, r, op).Done? && i < |rows|
    ensures |After(rows, r, op)| == |rows|
    ensures Open(After(rows, r, op)[i], r.userId) <==> Open(rows[i], r.userId) && r.current == Some(rows[i].id)
    ensures Open(rows[i], r.userId) && r.current != Some(rows[i].id) ==> After(rows, r, op)[i].revokedAt == Some(r.now)
  {
  }

  /** No handler touches a session of another user, or anything about a session already revoked. */
  lemma OthersAndRevokedUntouched(rows: seq<Session>, r: Request, op: Operation, i: nat)
    requires i < |rows|
    ensures |After(rows, r, op)| == |rows| && After(rows, r, op)[i].id == rows[i].id && After(rows, r, op)[i].userId == rows[i].userId
    ensures !Open(rows[i], r.userId) ==> After(rows, r, op)[i] == rows[i]
  {
  }

  function AfterAll(rows: seq<Session>, ops: seq<(Request, Operation)>): seq<Session>
    decreases |ops|
  {
    if ops == [] then rows else AfterAll(After(rows, ops[0].0, ops[0].1), ops[1..])
  }

  /** Over any run, a revocation time once set never changes: the whole record is frozen. */
  lemma {:induction false} RevocationIsFinal(rows: seq<Session>, ops: seq<(Request, Operation)>, i: nat)
    requires i < |rows| && rows[i].revokedAt.Some?
    ensures |AfterAll(rows, ops)| == |rows| && AfterAll(rows, ops)[i] == rows[i]
    decreases |ops|
  {
    if ops != [] {
      OthersAndRevokedUntouched(rows, ops[0].0, ops[0].1, i);
      RevocationIsFinal(After(rows, ops[0].0, ops[0].1), ops[1..], i);
    }
  }

  /** No handler opens a session: a closed one stays closed, a foreign one foreign. */
  lemma {:induction false} NothingReopens(rows: seq<Session>, ops: seq<(Request, Operation)>, userId: string, i: nat)
    requires i < |rows| && !Open(rows[i], userId)
    ensures |AfterAll(rows, ops)| == |rows| && !Open(AfterAll(rows, ops)[i], userId)
    decreases |ops|
  {
    if ops != [] {
      OthersAndRevokedUntouched(rows, ops[0].0, ops[0].1, i);
      var next := After(rows, ops[0].0, ops[0].1);
      assert !Open(next[i], userId);
      NothingReopens(next, ops[1..], userId, i);
    }
  }

  /** A sweep holds: after it, and after anything these handlers do next, only the session that asked can be open. */
  lemma SweepHolds(rows: seq<Session>, r: Request, op: Operation, ops: seq<(Request, Operation)>, i: nat)
    requires IsSweep(op) && OutcomeOf(rows, r, op).Done? && i < |rows|
    ensures |AfterAll(After(rows, r, op), ops)| == |rows|
    ensures Open(AfterAll(After(rows, r, op), ops)[i], r.userId) ==> r.current == Some(rows[i].id)
  {
    SweepLeavesOnlyCurrent(rows, r, op, i);
    if r.current != Some(rows[i].id) {
      NothingReopens(After(rows, r, op), ops, r.userId, i);
    } else {
      SessionCount(After(rows, r, op), ops);
    }
  }

  lemma {:induction false} SessionCount(rows: seq<Session>, ops: seq<(Request, Operation)>)
    ensures |AfterAll(rows, ops)| == |rows|
    decreases |ops|
  {
    if ops != [] {
      SessionCount(After(rows, ops[0].0, ops[0].1), ops[1..]);
    }
  }

  function OpenCount(rows: seq<Session>, userId: string): nat {
    if rows == [] then 0
    else OpenCount(rows[..|rows| - 1], userId) + (if Open(rows[|rows| - 1], userId) then 1 else 0)
  }

  /** The number that revoke-others reports is exactly how many open sessions the user has fewer. */
  lemma {:induction false} ReportedCountIsExact(rows: seq<Session>, userId: string, current: string, now: real)
    ensures OpenCount(OthersRevoked(rows, userId, current, now), userId) + CountElsewhere(rows, userId, current)
         == OpenCount(rows, userId)
  {
    if rows != [] {
      var n := |rows| - 1;
      ReportedCountIsExact(rows[..n], userId, current, now);
      assert OthersRevoked(rows, userId, current, now)[..n] == OthersRevoked(rows[..n], userId, current, now);
    }
  }

  // ---------- what is refused, and what the rest leaves ----------

  /** The checks behind each refusal; whatever is refused changes nothing. */
  lemma RefusalsByCode(rows: seq<Session>, r: Request, op: Operation)
    ensures var o := OutcomeOf(rows, r, op);
      (o == Refused(TooMany429) <==> (op.ConfirmMfa? || op.ChangePassword?) && !op.rateAllowed) &&
      (o == Refused(Forbidden403) <==> op == RemoveMfa(false)) &&
      (o == Refused(NotFound404) <==>
        op.RevokeOne? && forall i :: 0 <= i < |rows| ==> !(rows[i].id == op.id && rows[i].userId == r.userId)) &&
      (o == Refused(BadRequest400) <==>
        op == ConfirmMfa(true, false) ||
        (op.ChangePassword? && op.rateAllowed && op.passwordRight && op.samePassword)) &&
      (o == Refused(Unauthorized401) <==>
        (op == RevokeOthers && r.current == None) ||
        (op.ChangePassword? && op.rateAllowed &&
          (!op.passwordRight || (!op.samePassword && op.factor in {CodeMissing, CodeWrong})))) &&
      (o.Refused? ==> After(rows, r, op) == rows)
  {
  }

  /** A password changes only for the right one, a different one, and the second factor where one is enrolled. */
  lemma PasswordChangesIff(rows: seq<Session>, r: Request, rateAllowed: bool, passwordRight: bool, samePassword: bool, factor: Factor)
    ensures OutcomeOf(rows, r, ChangePassword(rateAllowed, passwordRight, samePassword, factor)).Done? <==>
      rateAllowed && passwordRight && !samePassword && (factor == NotEnrolled || factor == CodeRight)
  {
  }

  /** Revoking one session revokes that one, at the time of the first revocation, and no other. */
  lemma NamedSessionIsRevoked(rows: seq<Session>, r: Request, id: string, i: nat)
    requires i < |rows|
    ensures var after := After(rows, r, RevokeOne(id));
      |after| == |rows| &&
      (rows[i].id == id && rows[i].userId == r.userId ==>
        after[i] == rows[i].(revokedAt := if rows[i].revokedAt.Some? then rows[i].revokedAt else Some(r.now))) &&
      (rows[i].id != id || rows[i].userId != r.userId ==> after[i] == rows[i])
  {
  }

  /** What an accepted sweep writes into the session that asked for it, if that is open. */
  lemma CurrentIsMarked(rows: seq<Session>, r: Request, op: Operation, i: nat)
    requires IsSweep(op) && OutcomeOf(rows, r, op).Done? && i < |rows| && |After(rows, r, op)| == |rows|
    requires rows[i].userId == r.userId && rows[i].revokedAt == None && r.current == Some(rows[i].id)
    ensures var was, s := rows[i], After(rows, r, op)[i];
      s.revokedAt == None && s.id == was.id && s.userId == was.userId &&
      s.mfaVerifiedAt == (if op.ConfirmMfa? then Some(r.now) else if op.RemoveMfa? then None else was.mfaVerifiedAt) &&
      s.stepUpAt == (if op.ConfirmMfa? || op.ChangePassword? then Some(r.now) else was.stepUpAt)
  {
  }
}
