/** `SessionManager`: per-user sessions with a bounded conversation context.
    Timestamps are whole seconds of an integer clock passed in by the caller;
    fresh session ids (uuid4 strings) are passed in too. */
module Sessions {
  import opened Wrappers
  import opened PyStr

  const SessionTimeout: int := 86400
  const CleanupInterval: int := 3600
  const MaxContextSize: int := 50

  /** One entry of a session's context. */
  datatype Message = Message(role: string, content: string, timestamp: int, metadata: Option<map<string, string>>)

  /** The dictionary stored per session. */
  datatype Session = Session(id: string, createdAt: int, lastActivity: int, context: seq<Message>,
                             files: seq<string>, workingDirectory: string, settings: map<string, string>)

  /** The keys an `updates` dictionary may carry; an absent key leaves the field alone. */
  datatype SessionPatch = SessionPatch(id: Option<string>, createdAt: Option<int>, context: Option<seq<Message>>,
                                       files: Option<seq<string>>, workingDirectory: Option<string>,
                                       settings: Option<map<string, string>>)

  /** The record `get_or_create_session` stores for a new id. */
  function NewSession(id: string, now: int): Session {
    Session(id, now, now, [], [], ".", map[])
  }

  /** A new record starts empty, with both times set to now, and is not expired then. */
  lemma NewSessionIsBlank(id: string, now: int)
    ensures var r := NewSession(id, now);
            && r.id == id && r.createdAt == now && r.lastActivity == now
            && r.context == [] && r.files == [] && r.workingDirectory == "." && r.settings == map[]
            && !Expired(r, now)
  {
  }

  /** `dict.update(updates)` followed by the refreshed activity time. */
  function ApplyPatch(s: Session, patch: SessionPatch, now: int): (r: Session)
    ensures r.lastActivity == now
    ensures patch == SessionPatch(None, None, None, None, None, None) ==> r == s.(lastActivity := now)
    // a key present in the updates takes its value; an absent key keeps the stored one
    ensures (patch.id.Some? ==> r.id == patch.id.value) && (patch.id.None? ==> r.id == s.id)
    ensures (patch.createdAt.Some? ==> r.createdAt == patch.createdAt.value) && (patch.createdAt.None? ==> r.createdAt == s.createdAt)
    ensures (patch.context.Some? ==> r.context == patch.context.value) && (patch.context.None? ==> r.context == s.context)
    ensures (patch.files.Some? ==> r.files == patch.files.value) && (patch.files.None? ==> r.files == s.files)
    ensures (patch.workingDirectory.Some? ==> r.workingDirectory == patch.workingDirectory.value)
            && (patch.workingDirectory.None? ==> r.workingDirectory == s.workingDirectory)
    ensures (patch.settings.Some? ==> r.settings == patch.settings.value) && (patch.settings.None? ==> r.settings == s.settings)
  {
    Session(patch.id.GetOr(s.id), patch.createdAt.GetOr(s.createdAt), now, patch.context.GetOr(s.context),
            patch.files.GetOr(s.files), patch.workingDirectory.GetOr(s.workingDirectory), patch.settings.GetOr(s.settings))
  }

  /** Applying the same updates twice at the same time is applying them once. */
  lemma ApplyPatchIdempotent(s: Session, patch: SessionPatch, now: int)
    ensures ApplyPatch(ApplyPatch(s, patch, now), patch, now) == ApplyPatch(s, patch, now)
  {
  }

  /** Updates applied one after another: the later value of each key wins. */
  lemma ApplyPatchTwice(s: Session, first: SessionPatch, second: SessionPatch, earlier: int, later: int)
    ensures var merged := SessionPatch(
              if second.id.Some? then second.id else first.id,
              if second.createdAt.Some? then second.createdAt else first.createdAt,
              if second.context.Some? then second.context else first.context,
              if second.files.Some? then second.files else first.files,
              if second.workingDirectory.Some? then second.workingDirectory else first.workingDirectory,
              if second.settings.Some? then second.settings else first.settings);
            ApplyPatch(ApplyPatch(s, first, earlier), second, later) == ApplyPatch(s, merged, later)
  {
  }

  /** The message `add_to_context` builds: metadata is attached only when it is a non-empty dictionary. */
  function NewMessage(role: string, content: string, metadata: Option<map<string, string>>, now: int): (m: Message)
    ensures m.role == role && m.content == content && m.timestamp == now
    ensures m.metadata.Some? <==> metadata.Some? && |metadata.value| > 0
    ensures m.metadata.Some? ==> m.metadata == metadata
  {
    Message(role, content, now, if metadata.Some? && |metadata.value| > 0 then metadata else None)
  }

  /** The trim after an append: `context[-50:]` once the context holds more than 50 messages. */
  function KeepRecent(ctx: seq<Message>): (r: seq<Message>)
    ensures |r| == if |ctx| > MaxContextSize then MaxContextSize else |ctx|
    ensures r == ctx[|ctx| - |r|..]
  {
    if |ctx| > MaxContextSize then Drop(ctx, -MaxContextSize) else ctx
  }

  /** A session after a message is recorded in it. */
  function Record(s: Session, m: Message, now: int): (r: Session)
    ensures r.id == s.id && r.createdAt == s.createdAt && r.lastActivity == now
    ensures r.files == s.files && r.workingDirectory == s.workingDirectory && r.settings == s.settings
    ensures 0 < |r.context| <= MaxContextSize && |r.context| <= |s.context| + 1
    ensures |r.context| == if |s.context| + 1 > MaxContextSize then MaxContextSize else |s.context| + 1
    ensures r.context == (s.context + [m])[|s.context| + 1 - |r.context|..]
  {
    s.(context := KeepRecent(s.context + [m]), lastActivity := now)
  }

  /** `get_context`'s slice: a missing or zero limit returns everything,
      a positive one the last `limit` messages, and a negative one (through
      Python's `context[-limit:]`) drops the first `-limit` messages. */
  function ContextWindow(ctx: seq<Message>, limit: Option<int>): (r: seq<Message>)
    ensures limit.None? || limit.value == 0 ==> r == ctx
    ensures limit.Some? && limit.value > 0 ==>
              |r| == (if limit.value <= |ctx| then limit.value else |ctx|) && r == ctx[|ctx| - |r|..]
    ensures limit.Some? && limit.value < 0 ==>
              r == ctx[if -limit.value <= |ctx| then -limit.value else |ctx|..]
  {
    if limit.None? || limit.value == 0 then ctx else Drop(ctx, -limit.value)
  }

  /** A session is expired when strictly more than the timeout has passed since its last activity. */
  predicate Expired(s: Session, now: int) {
    now - s.lastActivity > SessionTimeout
  }

  /** The sessions that survive `cleanup_old_sessions` at time `now`. */
  function Unexpired(sessions: map<string, Session>, now: int): (r: map<string, Session>)
    ensures forall k :: k in r <==> k in sessions && !Expired(sessions[k], now)
    ensures forall k :: k in r ==> r[k] == sessions[k]
  {
    map k | k in sessions && !Expired(sessions[k], now) :: sessions[k]
  }

  /** Cleaning up twice at the same time changes nothing the second time. */
  lemma UnexpiredIdempotent(sessions: map<string, Session>, now: int)
    ensures Unexpired(Unexpired(sessions, now), now) == Unexpired(sessions, now)
  {
    var once := Unexpired(sessions, now);
    var twice := Unexpired(once, now);
    assert forall k :: k in twice <==> k in once;
  }

  /** A later cleanup keeps no session an earlier one removed. */
  lemma UnexpiredMonotone(sessions: map<string, Session>, earlier: int, later: int)
    requires earlier <= later
    ensures Unexpired(sessions, later).Keys <= Unexpired(sessions, earlier).Keys
  {
  }

  /** Recording a message keeps the newest one last and at most 50 of them,
      and keeps the whole history while it is short. */
  lemma RecordKeepsNewest(s: Session, m: Message, now: int)
    ensures var r := Record(s, m, now);
            && |r.context| <= MaxContextSize
            && r.context[|r.context| - 1] == m
            && (|s.context| < MaxContextSize ==> r.context == s.context + [m])
            && r.id == s.id && r.lastActivity == now
  {
    var ctx := s.context + [m];
    var r := KeepRecent(ctx);
    assert r == ctx[|ctx| - |r|..];
    assert r[|r| - 1] == ctx[|ctx| - 1];
  }

  class SessionManager {
    var sessions: map<string, Session>

    constructor ()
      ensures sessions == map[]
    {
      sessions := map[];
    }

    /** `get_or_create_session`: a missing or empty id takes `freshId`; a
        known id has its activity refreshed; an unknown one gets a new record. */
    method GetOrCreateSession(sessionId: Option<string>, freshId: string, now: int) returns (s: Session)
      modifies this
      ensures var id := if sessionId.None? || sessionId.value == "" then freshId else sessionId.value;
              && id in sessions && s == sessions[id]
              && (id in old(sessions) ==> sessions == old(sessions)[id := old(sessions)[id].(lastActivity := now)])
              && (id !in old(sessions) ==> sessions == old(sessions)[id := NewSession(id, now)])
    {
      var id := if sessionId.None? || sessionId.value == "" then freshId else sessionId.value;
      if id !in sessions {
        sessions := sessions[id := NewSession(id, now)];
      } else {
        sessions := sessions[id := sessions[id].(lastActivity := now)];
      }
      s := sessions[id];
    }

    /** `update_session`: false for an unknown id; otherwise the patch is applied. */
    method UpdateSession(sessionId: string, patch: SessionPatch, now: int) returns (ok: bool)
      modifies this
      ensures ok <==> sessionId in old(sessions)
      ensures ok ==> sessions == old(sessions)[sessionId := ApplyPatch(old(sessions)[sessionId], patch, now)]
      ensures !ok ==> sessions == old(sessions)
    {
      if sessionId !in sessions {
        return false;
      }
      sessions := sessions[sessionId := ApplyPatch(sessions[sessionId], patch, now)];
      ok := true;
    }

    /** `add_to_context`. An unknown id is created first through
        `get_or_create_session`; for the empty id that creates a session under
        `freshId` instead, and the following lookup of "" raises `KeyError`
        (`ok` is false) with the new session left behind. */
    method AddToContext(sessionId: string, role: string, content: string, metadata: Option<map<string, string>>,
                        freshId: string, now: int) returns (ok: bool)
      requires freshId != ""
      modifies this
      ensures var m := NewMessage(role, content, metadata, now);
              && (sessionId in old(sessions) ==>
                    ok && sessions == old(sessions)[sessionId := Record(old(sessions)[sessionId], m, now)])
              && (sessionId !in old(sessions) && sessionId != "" ==>
                    ok && sessions == old(sessions)[sessionId := Record(NewSession(sessionId, now), m, now)])
              && (sessionId !in old(sessions) && sessionId == "" ==>
                    !ok && sessions == old(sessions)[freshId := if freshId in old(sessions)
                                                               then old(sessions)[freshId].(lastActivity := now)
                                                               else NewSession(freshId, now)])
    {
      if sessionId !in sessions {
        var _ := GetOrCreateSession(Some(sessionId), freshId, now);
      }
      if sessionId !in sessions {
        return false;
      }
      var m := NewMessage(role, content, metadata, now);
      sessions := sessions[sessionId := Record(sessions[sessionId], m, now)];
      ok := true;
    }

    /** `get_context`: nothing for an unknown id, otherwise the window `limit` selects. */
    method GetContext(sessionId: string, limit: Option<int>) returns (r: seq<Message>)
      ensures sessionId !in sessions ==> r == []
      ensures sessionId in sessions ==> r == ContextWindow(sessions[sessionId].context, limit)
    {
      if sessionId !in sessions {
        return [];
      }
      r := ContextWindow(sessions[sessionId].context, limit);
    }

    /** `delete_session`: true exactly when the id was present, and then only it is gone. */
    method DeleteSession(sessionId: string) returns (deleted: bool)
      modifies this
      ensures deleted <==> sessionId in old(sessions)
      ensures sessions == old(sessions) - {sessionId}
    {
      deleted := sessionId in sessions;
      sessions := sessions - {sessionId};
    }

    /** `active_sessions_count`: the number of stored sessions. */
    function ActiveSessionsCount(): (n: nat)
      reads this
      ensures n == |sessions.Keys|
    {
      |sessions|
    }

    /** `cleanup_old_sessions`: collect the expired ids, then delete each. */
    method CleanupOldSessions(now: int)
      modifies this
      ensures sessions == Unexpired(old(sessions), now)
    {
      var expired: set<string> := {};
      var pending := sessions.Keys;
      while pending != {}
        invariant pending <= sessions.Keys
        invariant expired == set k | k in sessions.Keys - pending && Expired(sessions[k], now)
        decreases pending
      {
        var id :| id in pending;
        if Expired(sessions[id], now) {
          expired := expired + {id};
        }
        pending := pending - {id};
      }
      var todo := expired;
      while todo != {}
        invariant todo <= expired
        invariant sessions == map k | k in old(sessions) && k !in expired - todo :: old(sessions)[k]
        decreases todo
      {
        var id :| id in todo;
        var _ := DeleteSession(id);
        todo := todo - {id};
      }
    }

    /** `cleanup`: every session is dropped. */
    method Cleanup()
      modifies this
      ensures sessions == map[]
    {
      sessions := map[];
    }
  }
}
