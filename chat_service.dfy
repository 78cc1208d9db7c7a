/** The message store of backend/src/services/chatService.ts: messages are
    encrypted before they are stored and decrypted on the way out; only a
    user of a match may write to or read from it. */
module ChatService {
  import opened Common
  import opened Paging
  import opened Store

  /** The service's cipher under its fixed key, taken as two opaque
      functions on strings. */
  datatype Codec = Codec(encrypt: string -> string, decrypt: string -> string)

  /** Decryption undoes encryption. */
  ghost predicate RoundTrips(c: Codec) {
    forall x :: c.decrypt(c.encrypt(x)) == x
  }

  const ACCESS_DENIED := Thrown("Match non trouvé ou accès non autorisé")

  /** A message as the service hands it out: the stored row with its content
      decrypted, and the sender's summary. */
  datatype Delivered = Delivered(message: Message, sender: Option<UserSummary>)

  function Deliver(codec: Codec, users: seq<User>, m: Message): (d: Delivered)
    ensures d.message == m.(content := codec.decrypt(m.content))
    ensures d.sender.Some? <==> m.senderId < |users|
  {
    Delivered(m.(content := codec.decrypt(m.content)), SummaryOf(users, m.senderId))
  }

  function DeliverAll(codec: Codec, users: seq<User>, ms: seq<Message>): (r: seq<Delivered>)
    ensures |r| == |ms|
    ensures forall i :: 0 <= i < |ms| ==> r[i] == Deliver(codec, users, ms[i])
  {
    seq(|ms|, i requires 0 <= i < |ms| => Deliver(codec, users, ms[i]))
  }

  /** The row `sendMessage` stores: the content encrypted, the encryption
      flag set. */
  function Stored(codec: Codec, id: nat, matchId: nat, senderId: nat, content: string, messageType: string, now: int): (m: Message)
    ensures m.id == id && m.matchId == matchId && m.senderId == senderId
    ensures m.content == codec.encrypt(content) && m.isEncrypted
  {
    Message(id, matchId, senderId, codec.encrypt(content), messageType, true, now)
  }

  /** May `senderId` write to match `matchId`? Any user of the match may, be
      the match active or not. */
  predicate SendAllowed(matches: seq<Match>, matchId: nat, senderId: nat) {
    MatchFor(matches, matchId, senderId).Some?
  }

  /** `sendMessage`: check the sender belongs to the match, store the
      encrypted message, return it decrypted. */
  method SendMessage(db: Db, codec: Codec, matchId: nat, senderId: nat, content: string, messageType: string, now: int)
    returns (r: Result<Delivered>)
    requires db.Valid()
    modifies db`messages
    ensures db.Valid()
    ensures !SendAllowed(db.matches, matchId, senderId) ==> r == Fail(ACCESS_DENIED) && db.messages == old(db.messages)
    ensures SendAllowed(db.matches, matchId, senderId) ==>
      var row := Stored(codec, |old(db.messages)|, matchId, senderId, content, messageType, now);
      db.messages == old(db.messages) + [row] && r == Ok(Deliver(codec, db.users, row))
    ensures RoundTrips(codec) && r.Ok? ==> r.value.message.content == content
  {
    var found := MatchFor(db.matches, matchId, senderId);
    if found.None? {
      return Fail(ACCESS_DENIED);
    }
    var encrypted := codec.encrypt(content);
    var row := Message(|db.messages|, matchId, senderId, encrypted, messageType, true, now);
    db.messages := db.messages + [row];
    r := Ok(Deliver(codec, db.users, row));
  }

  /** The store filter `matchId = m`. */
  function InMatch(matchId: nat): Message -> bool {
    (m: Message) => m.matchId == matchId
  }

  /** The messages of a match, oldest first. */
  function MessagesOf(messages: seq<Message>, matchId: nat): (r: seq<Message>)
    ensures forall i :: 0 <= i < |r| ==> r[i] in messages && r[i].matchId == matchId
    ensures forall i :: 0 <= i < |messages| && messages[i].matchId == matchId ==> messages[i] in r
  {
    Filter(messages, InMatch(matchId))
  }

  /** `getMessages`: check the reader belongs to the match, read page `page`
      of the history newest first, decrypt each message, and reverse the
      page so that it reads oldest to newest. A window the store refuses
      (a negative skip or take) is a thrown error. */
  function GetMessages(codec: Codec, users: seq<User>, matches: seq<Match>, messages: seq<Message>,
                       matchId: nat, userId: nat, page: int, limit: int): (r: Result<seq<Delivered>>)
    ensures MatchFor(matches, matchId, userId).None? ==> r == Fail(ACCESS_DENIED)
    ensures MatchFor(matches, matchId, userId).Some? ==> (r.Ok? <==> PageWindow(page, limit).Some?)
    ensures r.Ok? ==>
      var asc := MessagesOf(messages, matchId);
      var w := PageWindow(page, limit).value;
      && |r.value| <= limit
      && r.value == DeliverAll(codec, users, asc[PageStart(|asc|, w)..PageEnd(|asc|, w)])
  {
    if MatchFor(matches, matchId, userId).None? then Fail(ACCESS_DENIED)
    else match PageWindow(page, limit)
      case None => Fail(Thrown("skip and take must not be negative"))
      case Some(w) =>
        var asc := MessagesOf(messages, matchId);
        var newestFirst := Slice(Reverse(asc), w);
        var decrypted := DeliverAll(codec, users, newestFirst);
        HistoryPageIsAscendingSlice(asc, w);
        HistoryPageFacts(asc, w);
        assert Reverse(decrypted) == DeliverAll(codec, users, Reverse(newestFirst));
        Ok(Reverse(decrypted))
  }

  /** What a writer stores is what a reader of the first page reads back:
      when the codec round-trips, the newest message of page one has the
      content that was sent. */
  lemma SentMessageReadBack(codec: Codec, users: seq<User>, matches: seq<Match>, messages: seq<Message>,
                            matchId: nat, senderId: nat, content: string, messageType: string, now: int, limit: nat)
    requires RoundTrips(codec)
    requires SendAllowed(matches, matchId, senderId)
    requires limit > 0
    ensures var after := messages + [Stored(codec, |messages|, matchId, senderId, content, messageType, now)];
            var r := GetMessages(codec, users, matches, after, matchId, senderId, 1, limit);
            r.Ok? && |r.value| > 0 && r.value[|r.value| - 1].message.content == content
              && r.value[|r.value| - 1].message.senderId == senderId
  {
    var row := Stored(codec, |messages|, matchId, senderId, content, messageType, now);
    var after := messages + [row];
    FilterAppend(messages, [row], InMatch(matchId));
    assert Filter([row], InMatch(matchId)) == [row];
    var asc := MessagesOf(after, matchId);
    assert asc[|asc| - 1] == row;
    var w := Window(0, limit);
    FirstPageWindow(limit);
    assert PageStart(|asc|, w) < PageEnd(|asc|, w) == |asc|;
    var page := asc[PageStart(|asc|, w)..PageEnd(|asc|, w)];
    assert page[|page| - 1] == row;
    var r := GetMessages(codec, users, matches, after, matchId, senderId, 1, limit);
    assert r.value == DeliverAll(codec, users, page);
    assert r.value[|r.value| - 1] == Deliver(codec, users, row);
  }

  /** `markMessagesAsRead` reports success and changes nothing; read
      receipts are not implemented. */
  function MarkMessagesAsRead(matchId: nat, userId: nat): (success: bool)
    ensures success
  {
    true
  }
}
