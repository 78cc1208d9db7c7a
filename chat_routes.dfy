/** The HTTP routes of backend/src/routes/chat.ts: reading a match's history
    (only while the match is active), the read-receipt stub, and the chat
    counters of the caller. */
module ChatRoutes {
  import opened Common
  import opened Paging
  import opened Store
  import opened ChatService

  const MATCH_CLOSED := Http(NOT_FOUND, "Match non trouvé ou inactif")

  /** May `u` read the history of match `matchId`? Only while it is active. */
  predicate ReadAllowed(matches: seq<Match>, matchId: nat, u: nat) {
    matchId < |matches| && Participant(matches[matchId], u) && matches[matchId].isActive
  }

  /** `GET /messages/:matchId`, with page 1 and 50 messages per page unless
      the query says otherwise; every failure of the service becomes a 500. */
  function MessagesRoute(codec: Codec, users: seq<User>, matches: seq<Match>, messages: seq<Message>,
                         matchId: nat, u: nat, page: Option<int>, limit: Option<int>): (r: Result<seq<Delivered>>)
    ensures !ReadAllowed(matches, matchId, u) ==> r == Fail(MATCH_CLOSED)
    ensures ReadAllowed(matches, matchId, u) ==>
      var p := if page.Some? then page.value else 1;
      var l := if limit.Some? then limit.value else 50;
      && (r.Ok? <==> PageWindow(p, l).Some?)
      && (r.Ok? ==> r == GetMessages(codec, users, matches, messages, matchId, u, p, l))
      && (r.Fail? ==> r == Fail(INTERNAL_ERROR))
  {
    if !ReadAllowed(matches, matchId, u) then Fail(MATCH_CLOSED)
    else
      var res := GetMessages(codec, users, matches, messages, matchId, u,
                             if page.Some? then page.value else 1, if limit.Some? then limit.value else 50);
      if res.Ok? then res else Fail(INTERNAL_ERROR)
  }

  /** Unmatching closes the history to both users while the service would
      still accept new messages for the match: the read route and
      `sendMessage` disagree on inactive matches. */
  lemma InactiveMatchWritableNotReadable(codec: Codec, users: seq<User>, matches: seq<Match>, messages: seq<Message>,
                                         matchId: nat, u: nat, page: Option<int>, limit: Option<int>)
    requires matchId < |matches| && Participant(matches[matchId], u)
    ensures var closed := matches[matchId := matches[matchId].(isActive := false)];
            && SendAllowed(closed, matchId, u)
            && MessagesRoute(codec, users, closed, messages, matchId, u, page, limit) == Fail(MATCH_CLOSED)
  {
  }

  /** `POST /messages/:matchId/read`: always answers success. */
  function MarkReadRoute(matchId: nat, u: nat): (r: Result<bool>)
    ensures r == Ok(true)
  {
    var success := MarkMessagesAsRead(matchId, u);
    Ok(success)
  }

  datatype ChatStats = ChatStats(totalMessages: nat, activeMatches: nat, unreadCount: nat)

  function SenderIs(u: nat): Message -> bool {
    (m: Message) => m.senderId == u
  }

  function ActiveFor(u: nat): Match -> bool {
    (m: Match) => Participant(m, u) && m.isActive
  }

  /** The positions of the messages `u` sent. */
  ghost function SentPositions(messages: seq<Message>, u: nat): set<nat> {
    set i | 0 <= i < |messages| && messages[i].senderId == u
  }

  /** The positions of the matches whose history `u` may read. */
  ghost function OpenPositions(matches: seq<Match>, u: nat): set<nat> {
    set i | 0 <= i < |matches| && ReadAllowed(matches, i, u)
  }

  /** `GET /stats` of the chat routes: the messages the caller sent, the
      active matches the caller is in, and an unread count that is always 0. */
  function Stats(matches: seq<Match>, messages: seq<Message>, u: nat): (r: ChatStats)
    ensures r.totalMessages <= |messages| && r.activeMatches <= |matches|
    ensures r.unreadCount == 0
    ensures r.totalMessages == 0 <==> forall i :: 0 <= i < |messages| ==> messages[i].senderId != u
    ensures r.activeMatches == 0 <==> forall i :: 0 <= i < |matches| ==> !ReadAllowed(matches, i, u)
    ensures r.totalMessages == |SentPositions(messages, u)|
    ensures r.activeMatches == |OpenPositions(matches, u)|
  {
    var sent := Filter(messages, SenderIs(u));
    var active := Filter(matches, ActiveFor(u));
    assert |sent| == |SentPositions(messages, u)| by {
      CountIsPositions(messages, SenderIs(u));
      assert Positions(messages, SenderIs(u)) == SentPositions(messages, u);
    }
    assert |active| == |OpenPositions(matches, u)| by {
      CountIsPositions(matches, ActiveFor(u));
      assert Positions(matches, ActiveFor(u)) == OpenPositions(matches, u);
    }
    assert SentPositions(messages, u) != {} ==> exists i :: 0 <= i < |messages| && messages[i].senderId == u by {
      if SentPositions(messages, u) != {} {
        var i :| i in SentPositions(messages, u);
      }
    }
    assert OpenPositions(matches, u) != {} ==> exists i :: 0 <= i < |matches| && ReadAllowed(matches, i, u) by {
      if OpenPositions(matches, u) != {} {
        var i :| i in OpenPositions(matches, u);
      }
    }
    ChatStats(|sent|, |active|, 0)
  }

  /** Each message the caller sends adds exactly one to their message count,
      and nothing to anyone else's. */
  lemma SendCountsOnce(codec: Codec, matches: seq<Match>, messages: seq<Message>,
                       matchId: nat, sender: nat, content: string, messageType: string, now: int, v: nat)
    ensures var after := messages + [Stored(codec, |messages|, matchId, sender, content, messageType, now)];
            Stats(matches, after, v).totalMessages
              == Stats(matches, messages, v).totalMessages + (if v == sender then 1 else 0)
  {
    var row := Stored(codec, |messages|, matchId, sender, content, messageType, now);
    FilterAppend(messages, [row], SenderIs(v));
    assert Filter([row], SenderIs(v)) == if v == sender then [row] else [];
  }

  /** Unmatching (`DELETE /matches/:matchId` sets `isActive` to false) takes
      one from the active-match count of both members when the match was
      active, and changes no other count. */
  lemma UnmatchCountsOnce(matches: seq<Match>, messages: seq<Message>, matchId: nat, v: nat)
    requires matchId < |matches|
    ensures var m := matches[matchId];
            var after := matches[matchId := m.(isActive := false)];
            && Stats(after, messages, v).activeMatches
                 == Stats(matches, messages, v).activeMatches - (if m.isActive && Participant(m, v) then 1 else 0)
            && Stats(after, messages, v).totalMessages == Stats(matches, messages, v).totalMessages
  {
    var after := matches[matchId := matches[matchId].(isActive := false)];
    var before := OpenPositions(matches, v);
    var now := OpenPositions(after, v);
    assert now == before - {matchId};
    if ReadAllowed(matches, matchId, v) {
      assert before == now + {matchId};
    } else {
      assert now == before;
    }
  }
}
