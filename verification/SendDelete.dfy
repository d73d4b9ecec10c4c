/**
  Sending a Mattermost post as several Matrix events and deleting them again
  (server/matrix/client.go, server/sync_to_matrix.go).

  The room is its log of events; an event's id is its place in the log.  A send may fail, and other
  people's events may arrive before it.
*/
module SendDelete {
  import opened Prelude

  datatype Kind = Text | Image | Video | Audio | File | Other

  datatype Relation = NoRelation | Thread(target: int) | PostGroup(target: int) | OtherRelation(target: int)

  /** `html` is the formatted body of a text, `uri` the address of a file. */
  datatype Event = Event(
    sender: string,
    kind: Kind,
    body: string,
    html: string,
    uri: string,
    relation: Relation,
    post: string)

  datatype FileAttachment = FileAttachment(filename: string, mimeType: string, uri: string)

  datatype MessageRequest = MessageRequest(
    roomID: string,
    ghostUserID: string,
    message: string,
    htmlMessage: string,
    thread: Option<int>,
    postID: string,
    files: seq<FileAttachment>)

  /**
    Whether a send is acknowledged, and what else reaches the room before the answer.  An event whose
    acknowledgement is lost is a failed send with that event among the others.
  */
  datatype Outcome = Outcome(ok: bool, others: seq<Event>)

  /** A lookup that fails, finds nothing, or finds something. */
  datatype Lookup<T> = Failed | Absent | Found(value: T)

  predicate IsFile(kind: Kind) {
    kind.File? || kind.Image? || kind.Video? || kind.Audio?
  }

  function FileKind(mimeType: string): (kind: Kind)
    ensures IsFile(kind)
  {
    if "image/" <= mimeType then Image
    else if "video/" <= mimeType then Video
    else if "audio/" <= mimeType then Audio
    else File
  }

  predicate HasText(req: MessageRequest) {
    req.message != "" || req.htmlMessage != ""
  }

  /** Threading takes priority over grouping with the root event. */
  function RelationTo(req: MessageRequest, root: Option<int>): Relation {
    if req.thread.Some? then Thread(req.thread.value)
    else if root.Some? then PostGroup(root.value)
    else NoRelation
  }

  function TextEvent(req: MessageRequest, root: Option<int>): Event {
    Event(req.ghostUserID, Text, req.message, req.htmlMessage, "", RelationTo(req, root), req.postID)
  }

  function FileEvent(req: MessageRequest, file: FileAttachment, root: Option<int>): Event {
    Event(req.ghostUserID, FileKind(file.mimeType), file.filename, "", file.uri, RelationTo(req, root), req.postID)
  }

  /** A part of the post, sent by its ghost: a reply when the post is in a thread, else grouped with the root. */
  predicate IsPart(e: Event, req: MessageRequest, root: Option<int>) {
    && e.sender == req.ghostUserID && e.post == req.postID
    && (req.thread.Some? ==> e.relation == Thread(req.thread.value))
    && (req.thread.None? && root.Some? ==> e.relation == PostGroup(root.value))
    && (req.thread.None? && root.None? ==> e.relation == NoRelation)
  }

  predicate IsText(e: Event, req: MessageRequest) {
    e.kind.Text? && e.body == req.message && e.html == req.htmlMessage && IsPart(e, req, None)
  }

  /** The file under its name, shown as what its MIME type says. */
  predicate IsFilePart(e: Event, req: MessageRequest, file: FileAttachment, root: Option<int>) {
    && (e.kind.Image? <==> "image/" <= file.mimeType)
    && (e.kind.Video? <==> "video/" <= file.mimeType)
    && (e.kind.Audio? <==> "audio/" <= file.mimeType)
    && IsFile(e.kind) && e.body == file.filename && e.uri == file.uri && IsPart(e, req, root)
  }

  lemma PartsAre(req: MessageRequest, file: FileAttachment, root: Option<int>)
    ensures IsText(TextEvent(req, None), req)
    ensures IsFilePart(FileEvent(req, file, root), req, file, root)
  {
    if "image/" <= file.mimeType { assert file.mimeType[0] == "image/"[0] == 'i'; }
    if "video/" <= file.mimeType { assert file.mimeType[0] == "video/"[0] == 'v'; }
    if "audio/" <= file.mimeType { assert file.mimeType[0] == "audio/"[0] == 'a'; }
  }

  predicate RelatesTo(event: Event, id: int) {
    !event.relation.NoRelation? && event.relation.target == id
  }

  // ---------- what has been sent ----------

  /** The files whose send succeeded, in order. */
  function SentFiles(files: seq<FileAttachment>, outcomes: seq<Outcome>): seq<FileAttachment>
    requires |files| == |outcomes|
  {
    if files == [] then []
    else
      var n := |files| - 1;
      SentFiles(files[..n], outcomes[..n]) + if outcomes[n].ok then [files[n]] else []
  }

  function Acknowledged(outcomes: seq<Outcome>, n: int): set<int>
    requires 0 <= n <= |outcomes|
  {
    set j | 0 <= j < n && outcomes[j].ok
  }

  lemma AcknowledgedMore(outcomes: seq<Outcome>, n: int)
    requires 0 <= n < |outcomes|
    ensures |Acknowledged(outcomes, n + 1)| == |Acknowledged(outcomes, n)| + if outcomes[n].ok then 1 else 0
  {
    assert Acknowledged(outcomes, n + 1) == Acknowledged(outcomes, n) + if outcomes[n].ok then {n} else {};
  }

  /** Exactly the acknowledged files have been sent, each after those acknowledged before it. */
  lemma {:induction false} SentFilesAre(files: seq<FileAttachment>, outcomes: seq<Outcome>)
    requires |files| == |outcomes|
    ensures |SentFiles(files, outcomes)| == |Acknowledged(outcomes, |outcomes|)|
    ensures forall i :: 0 <= i < |files| && outcomes[i].ok ==>
              var k := |Acknowledged(outcomes, i)|;
              k < |SentFiles(files, outcomes)| && SentFiles(files, outcomes)[k] == files[i]
  {
    if files != [] {
      var n := |files| - 1;
      SentFilesAre(files[..n], outcomes[..n]);
      AcknowledgedMore(outcomes, n);
      forall i | 0 <= i <= n ensures Acknowledged(outcomes[..n], i) == Acknowledged(outcomes, i) {
      }
    }
  }

  lemma SentOneMore(files: seq<FileAttachment>, outcomes: seq<Outcome>, n: int)
    requires |files| == |outcomes| && 0 <= n < |files|
    ensures SentFiles(files[..n + 1], outcomes[..n + 1])
         == SentFiles(files[..n], outcomes[..n]) + if outcomes[n].ok then [files[n]] else []
  {
    assert files[..n + 1][..n] == files[..n] && outcomes[..n + 1][..n] == outcomes[..n];
  }

  function Root(sent: seq<int>): Option<int> {
    if sent == [] then None else Some(sent[0])
  }

  /**
    The events `sent` carry the post: its text first when it has one, then the files `files`; the first is the
    root of the others unless the post is threaded.
  */
  ghost predicate Carries(events: seq<Event>, req: MessageRequest, from: int, sent: seq<int>,
                          files: seq<FileAttachment>) {
    var texts := if req.message != "" || req.htmlMessage != "" then 1 else 0;
    && 0 <= from && |sent| == texts + |files|
    && (forall k :: 0 <= k < |sent| ==> from <= sent[k] < |events|)
    && (forall k, l :: 0 <= k < l < |sent| ==> sent[k] < sent[l])
    && (texts == 1 ==> IsText(events[sent[0]], req))
    && (forall k :: 0 <= k < |files| ==>
          IsFilePart(events[sent[texts + k]], req, files[k], if texts + k == 0 then None else Some(sent[0])))
  }

  lemma CarriesMore(events: seq<Event>, req: MessageRequest, from: int, sent: seq<int>, files: seq<FileAttachment>,
                    more: seq<Event>)
    requires Carries(events, req, from, sent, files)
    ensures Carries(events + more, req, from, sent, files)
  {
  }

  lemma CarriesFile(events: seq<Event>, req: MessageRequest, from: int, sent: seq<int>, files: seq<FileAttachment>,
                    others: seq<Event>, file: FileAttachment)
    requires Carries(events, req, from, sent, files) && from <= |events|
    ensures var id := |events| + |others|;
            Carries(events + others + [FileEvent(req, file, Root(sent))], req, from, sent + [id], files + [file])
  {
    PartsAre(req, file, Root(sent));
    hide IsText, IsFilePart, FileEvent;
    CarriesMore(events, req, from, sent, files, others);
    CarriesMore(events + others, req, from, sent, files, [FileEvent(req, file, Root(sent))]);
    var id := |events| + |others|;
    assert (events + others + [FileEvent(req, file, Root(sent))])[id] == FileEvent(req, file, Root(sent));
  }

  lemma CarriesStart(events: seq<Event>, req: MessageRequest, others: seq<Event>)
    ensures if HasText(req) then
              Carries(events + others + [TextEvent(req, None)], req, |events|, [|events| + |others|], [])
            else Carries(events, req, |events|, [], [])
    ensures req.files[..0] == [] && SentFiles([], []) == []
  {
    PartsAre(req, FileAttachment("", "", ""), None);
    hide IsText, TextEvent;
  }

  /** The log after one attempt still carries what it did, and the file if that was sent. */
  lemma CarriesAttempt(events: seq<Event>, req: MessageRequest, from: int, sent: seq<int>, outcomes: seq<Outcome>,
                       n: int)
    requires |outcomes| == |req.files| && 0 <= n < |req.files|
    requires Carries(events, req, from, sent, SentFiles(req.files[..n], outcomes[..n])) && from <= |events|
    ensures var id := |events| + |outcomes[n].others|;
            var more := if outcomes[n].ok then [FileEvent(req, req.files[n], Root(sent))] else [];
            Carries(events + outcomes[n].others + more, req, from, sent + (if outcomes[n].ok then [id] else []),
                    SentFiles(req.files[..n + 1], outcomes[..n + 1]))
  {
    hide Carries, SentFiles;
    var done := SentFiles(req.files[..n], outcomes[..n]);
    SentOneMore(req.files, outcomes, n);
    if outcomes[n].ok {
      CarriesFile(events, req, from, sent, done, outcomes[n].others, req.files[n]);
    } else {
      assert done + [] == done && sent + [] == sent;
      assert events + outcomes[n].others + [] == events + outcomes[n].others;
      CarriesMore(events, req, from, sent, done, outcomes[n].others);
    }
  }

  class Client {
    var events: seq<Event>
    var redacted: set<int>
    const asToken: string

    constructor (log: seq<Event>, token: string)
      ensures events == log && redacted == {} && asToken == token
    {
      events, redacted, asToken := log, {}, token;
    }

    method SendEventAsUser(event: Event, outcome: Outcome) returns (response: Option<int>)
      modifies this`events
      ensures events == old(events) + outcome.others + (if outcome.ok then [event] else [])
      ensures response == if outcome.ok then Some(|old(events)| + |outcome.others|) else None
    {
      events := events + outcome.others;
      if outcome.ok {
        events := events + [event];
        return Some(|events| - 1);
      } else {
        assert events + [] == events;
        return None;
      }
    }

    /**
      Errs exactly when nothing was sent and otherwise returns the first event sent.  A failed text is the
      end of it; a failed file is skipped.
    */
    method SendMattermostPost(req: MessageRequest, text: Outcome, outcomes: seq<Outcome>)
      returns (primary: Option<int>, ghost sent: seq<int>)
      requires |outcomes| == |req.files|
      modifies this`events
      ensures old(events) <= events
      ensures primary == Root(sent)
      ensures (if (req.message != "" || req.htmlMessage != "") && !text.ok
               then sent == [] && events == old(events) + text.others
               else Carries(events, req, |old(events)|, sent, SentFiles(req.files, outcomes)))
    {
      hide Carries, SentFiles;
      primary := None;
      sent := [];
      var rootEventID: Option<int> := None;
      CarriesStart(events, req, text.others);
      if HasText(req) {
        var textResponse := SendEventAsUser(TextEvent(req, None), text);
        if textResponse.None? {
          return None, [];
        }
        primary := textResponse;
        rootEventID := textResponse;
        sent := [textResponse.value];
      }
      assert outcomes[..0] == [];
      for n := 0 to |req.files|
        invariant old(events) <= events
        invariant primary == rootEventID == Root(sent)
        invariant Carries(events, req, |old(events)|, sent, SentFiles(req.files[..n], outcomes[..n]))
      {
        CarriesAttempt(events, req, |old(events)|, sent, outcomes, n);
        var fileResponse := SendEventAsUser(FileEvent(req, req.files[n], rootEventID), outcomes[n]);
        if fileResponse.None? {
          assert sent + [] == sent;
          continue;
        }
        sent := sent + [fileResponse.value];
        if primary.None? {
          primary := fileResponse;
          rootEventID := fileResponse;
        }
      }
      assert req.files[..|req.files|] == req.files && outcomes[..|req.files|] == outcomes;
    }

    /**
      Without a token, over the rate limit (`limited`), incomplete or empty: refused before anything is sent.
      Otherwise the post is sent.
    */
    method SendMessage(req: MessageRequest, limited: bool, text: Outcome, outcomes: seq<Outcome>)
      returns (primary: Option<int>, ghost sent: seq<int>)
      requires |outcomes| == |req.files|
      modifies this`events
      ensures old(events) <= events && primary == Root(sent)
      ensures (if asToken == "" || limited || req.roomID == "" || req.ghostUserID == ""
                  || (req.message == "" && req.htmlMessage == "" && req.files == [])
               then sent == [] && events == old(events)
               else if (req.message != "" || req.htmlMessage != "") && !text.ok
               then sent == [] && events == old(events) + text.others
               else Carries(events, req, |old(events)|, sent, SentFiles(req.files, outcomes)))
    {
      if asToken == "" {
        return None, [];
      }
      if limited {
        return None, [];
      }
      if req.roomID == "" {
        return None, [];
      }
      if req.ghostUserID == "" {
        return None, [];
      }
      if !HasText(req) && |req.files| == 0 {
        return None, [];
      }
      primary, sent := SendMattermostPost(req, text, outcomes);
    }

    /** The file events of the ghost user among the related events the homeserver names. */
    method GetFileEventIDsFromMetadata(related: seq<int>, ghostUserID: string) returns (ids: seq<int>)
      requires forall k :: 0 <= k < |related| ==> 0 <= related[k] < |events|
      ensures forall id :: id in ids <==> id in related && events[id].sender == ghostUserID && IsFile(events[id].kind)
    {
      ids := [];
      for k := 0 to |related|
        invariant forall id :: id in ids
                    <==> id in related[..k] && events[id].sender == ghostUserID && IsFile(events[id].kind)
      {
        assert related[..k + 1] == related[..k] + [related[k]];
        if events[related[k]].sender != ghostUserID {
          continue;
        }
        if IsFile(events[related[k]].kind) {
          ids := ids + [related[k]];
        }
      }
      assert related[..|related|] == related;
    }

    method RedactEventAsGhost(id: int, failing: set<int>) returns (ok: bool)
      modifies this`redacted
      ensures ok == (id !in failing)
      ensures redacted == old(redacted) + if ok then {id} else {}
    {
      if id in failing {
        return false;
      }
      redacted := redacted + {id};
      return true;
    }

    /** A failed redaction is skipped. */
    method DeleteAllFileReplies(related: seq<int>, ghostUserID: string, failing: set<int>)
      requires forall k :: 0 <= k < |related| ==> 0 <= related[k] < |events|
      modifies this`redacted
      ensures (redacted == old(redacted)
               + set id | id in related && events[id].sender == ghostUserID && IsFile(events[id].kind)
                   && id !in failing)
    {
      var ids := GetFileEventIDsFromMetadata(related, ghostUserID);
      for k := 0 to |ids|
        invariant redacted == old(redacted) + set id | id in ids[..k] && id !in failing
      {
        assert ids[..k + 1] == ids[..k] + [ids[k]];
        var _ := RedactEventAsGhost(ids[k], failing);
      }
      assert ids[..|ids|] == ids;
      ghost var done := set id | id in ids && id !in failing;
      ghost var wanted := set id | id in related && events[id].sender == ghostUserID && IsFile(events[id].kind)
        && id !in failing;
      forall id ensures id in done <==> id in wanted {
        assert id in ids <==> id in related && events[id].sender == ghostUserID && IsFile(events[id].kind);
      }
      assert done == wanted;
    }

    /**
      Redacts the file replies the relations lookup finds, then the post's own event; a failed lookup (None)
      leaves the files.  Before that, a channel without room, a post without event and a user without ghost are
      nothing to do, and an error of the room, alias or user lookup is an error.
    */
    method DeletePostFromMatrix(room: Lookup<string>, aliasResolved: bool, eventID: Option<int>, userFound: bool,
                                ghostUser: Option<string>, related: Option<seq<int>>, failing: set<int>)
      returns (ok: bool)
      requires related.Some? ==> forall k :: 0 <= k < |related.value| ==> 0 <= related.value[k] < |events|
      modifies this`redacted
      ensures (if room.Failed? then !ok && redacted == old(redacted)
               else if room.Absent? then ok && redacted == old(redacted)
               else if !aliasResolved then !ok && redacted == old(redacted)
               else if eventID.None? then ok && redacted == old(redacted)
               else if !userFound then !ok && redacted == old(redacted)
               else if ghostUser.None? then ok && redacted == old(redacted)
               else
                 && ok == (eventID.value !in failing)
                 && (redacted
                     == old(redacted) + (Doomed(events, eventID.value, ghostUser.value,
                                                if related.Some? then set id | id in related.value else {})
                                         - failing)))
    {
      if room.Failed? {
        return false;
      }
      if room.Absent? {
        return true;
      }
      if !aliasResolved {
        return false;
      }
      if eventID.None? {
        return true;
      }
      if !userFound {
        return false;
      }
      if ghostUser.None? {
        return true;
      }
      if related.Some? {
        DeleteAllFileReplies(related.value, ghostUser.value, failing);
      }
      ok := RedactEventAsGhost(eventID.value, failing);
    }
  }

  // ---------- what deletion reaches ----------

  /** The events that deleting the post with event `id` sets out to redact, given what the lookup finds. */
  function Doomed(events: seq<Event>, id: int, ghostUserID: string, found: set<int>): set<int> {
    {id} + set e | e in found && 0 <= e < |events| && events[e].sender == ghostUserID && IsFile(events[e].kind)
  }

  /** All events related to `id`: what a complete lookup finds. */
  function RelatedTo(events: seq<Event>, id: int): set<int> {
    set e | 0 <= e < |events| && RelatesTo(events[e], id)
  }

  /**
    Deleting reaches every event sent for the post, whatever sends failed and whatever else the room gets
    before or `later`, exactly when the post was unthreaded or a single event.  The thread's root is an older event.
  */
  lemma DeleteReachesAllIff(events: seq<Event>, req: MessageRequest, from: int, sent: seq<int>,
                            files: seq<FileAttachment>,
                            later: seq<Event>)
    requires Carries(events, req, from, sent, files) && sent != []
    requires req.thread.Some? ==> req.thread.value < from
    ensures ((forall k :: 0 <= k < |sent| ==>
                sent[k] in Doomed(events + later, sent[0], req.ghostUserID, RelatedTo(events + later, sent[0])))
             <==> req.thread.None? || |sent| == 1)
  {
    var room := events + later;
    CarriesMore(events, req, from, sent, files, later);
    hide Carries;
    forall k | 0 < k < |sent|
      ensures sent[k] in Doomed(room, sent[0], req.ghostUserID, RelatedTo(room, sent[0])) <==> req.thread.None?
    {
      LaterPart(room, req, from, sent, files, k);
    }
    if |sent| > 1 {
      LaterPart(room, req, from, sent, files, 1);
    }
  }

  lemma LaterPart(events: seq<Event>, req: MessageRequest, from: int, sent: seq<int>, files: seq<FileAttachment>,
                  k: int)
    requires Carries(events, req, from, sent, files) && 0 < k < |sent|
    requires req.thread.Some? ==> req.thread.value < from
    ensures sent[k] in Doomed(events, sent[0], req.ghostUserID, RelatedTo(events, sent[0])) <==> req.thread.None?
  {
    var texts := if HasText(req) then 1 else 0;
    assert IsFilePart(events[sent[texts + (k - texts)]], req, files[k - texts], Some(sent[0]));
  }

  /** A text and a file in a thread: deletion leaves the file. */
  lemma ThreadedFileStays(req: MessageRequest, root: Event)
    requires HasText(req) && req.thread == Some(0) && |req.files| == 1
    ensures var events := [root, TextEvent(req, None), FileEvent(req, req.files[0], Some(1))];
            && Carries(events, req, 1, [1, 2], req.files)
            && 1 in Doomed(events, 1, req.ghostUserID, RelatedTo(events, 1))
            && 2 !in Doomed(events, 1, req.ghostUserID, RelatedTo(events, 1))
  {
    var events := [root, TextEvent(req, None), FileEvent(req, req.files[0], Some(1))];
    PartsAre(req, req.files[0], Some(1));
    assert events[2].relation == Thread(0);
  }

  /** Nobody else's events are redacted, and of the ghost user's own only the post's event and files relating to it. */
  lemma DeleteSparesOthers(events: seq<Event>, id: int, ghostUserID: string, found: set<int>, e: int)
    requires found <= RelatedTo(events, id) && 0 <= id < |events| && events[id].sender == ghostUserID
    requires e in Doomed(events, id, ghostUserID, found)
    ensures 0 <= e < |events| && events[e].sender == ghostUserID
              && (e == id || (IsFile(events[e].kind) && RelatesTo(events[e], id)))
  {
  }

  /** A post whose first reply in its thread is the ghost user's own file loses that file too when it is deleted. */
  lemma DeleteTakesOwnThreadFiles(req: MessageRequest, reply: MessageRequest, file: FileAttachment)
    requires HasText(req) && req.thread.None? && req.files == []
    requires reply.ghostUserID == req.ghostUserID && reply.postID != req.postID && reply.thread == Some(0)
    ensures var events := [TextEvent(req, None), FileEvent(reply, file, None)];
            && Carries(events, req, 0, [0], [])
            && events[1].post != req.postID
            && 1 in Doomed(events, 0, req.ghostUserID, RelatedTo(events, 0))
  {
    var events := [TextEvent(req, None), FileEvent(reply, file, None)];
    PartsAre(req, file, None);
    assert 1 in RelatedTo(events, 0);
  }
}
