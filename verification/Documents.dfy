/** Per-document open/change/close notifications of a language-server session. Both
    operations hold the registry's lock while they write, so each is one step. */
module Documents {
  import opened Wrappers
  import opened Machine

  datatype Note =
    | DidOpen(uri: string, version: u32, text: string)
    | DidChange(uri: string, version: u32, text: string)
    | DidClose(uri: string)

  /** `resolved` and `written` are the outcomes of finding the document's URI and of
      writing to the server. */
  datatype Event =
    | Sync(path: string, text: string, resolved: bool, written: bool)
    | Close(path: string, resolved: bool, written: bool)

  /** `sent` lists the notifications attempted, `delivered` the ones that were written. */
  datatype State = State(documents: map<string, u32>, sent: seq<Note>, delivered: seq<Note>)

  function Init(): State {
    State(map[], [], [])
  }

  function Notify(s: State, note: Note, written: bool): State {
    s.(sent := s.sent + [note], delivered := if written then s.delivered + [note] else s.delivered)
  }

  function SatNext(version: u32): u32 {
    Min(version + 1, U32_MAX)
  }

  function Step(uri: string -> string, s: State, e: Event): State {
    match e
    case Sync(path, text, resolved, written) =>
      if !resolved then s
      else if path in s.documents then
        var version := SatNext(s.documents[path]);
        Notify(s.(documents := s.documents[path := version]), DidChange(uri(path), version, text), written)
      else
        Notify(s.(documents := s.documents[path := 1]), DidOpen(uri(path), 1, text), written)
    case Close(path, resolved, written) =>
      if !resolved || path !in s.documents then s
      else Notify(s.(documents := s.documents - {path}), DidClose(uri(path)), written)
  }

  function Run(uri: string -> string, events: seq<Event>): State {
    if events == [] then Init() else Step(uri, Run(uri, events[..|events| - 1]), events[|events| - 1])
  }

  /** The session's document registry; `sent` and `delivered` record its writes. */
  class Registry {
    var documents: map<string, u32>
    ghost var sent: seq<Note>
    ghost var delivered: seq<Note>
    const uri: string -> string

    ghost function View(): State
      reads this
    {
      State(documents, sent, delivered)
    }

    constructor (uri: string -> string)
      ensures View() == Init() && this.uri == uri
    {
      documents, sent, delivered := map[], [], [];
      this.uri := uri;
    }

    method SyncDocument(path: string, text: string, resolved: bool, written: bool) returns (ok: bool)
      modifies this
      ensures View() == Step(uri, old(View()), Sync(path, text, resolved, written))
      ensures ok <==> resolved && written
    {
      if !resolved {
        return false;
      }
      if path in documents {
        documents := documents[path := SatNext(documents[path])];
        Write(DidChange(uri(path), documents[path], text), written);
      } else {
        documents := documents[path := 1];
        Write(DidOpen(uri(path), 1, text), written);
      }
      return written;
    }

    method CloseDocument(path: string, resolved: bool, written: bool) returns (ok: bool)
      modifies this
      ensures View() == Step(uri, old(View()), Close(path, resolved, written))
      ensures ok <==> resolved && (path !in old(documents) || written)
    {
      if !resolved {
        return false;
      }
      if path !in documents {
        return true;
      }
      documents := documents - {path};
      Write(DidClose(uri(path)), written);
      return written;
    }

    ghost method Write(note: Note, written: bool)
      modifies this`sent, this`delivered
      ensures View() == Notify(old(View()), note, written)
    {
      sent := sent + [note];
      if written {
        delivered := delivered + [note];
      }
    }
  }

  // ----- the protocol one document's notifications must follow

  function ForUri(log: seq<Note>, uri: string): seq<Note> {
    if log == [] then []
    else ForUri(log[..|log| - 1], uri) + (if log[|log| - 1].uri == uri then [log[|log| - 1]] else [])
  }

  /** May `b` directly follow `a` among the notifications of one document? */
  predicate MayFollow(a: Note, b: Note) {
    match b
    case DidOpen(_, version, _) => a.DidClose? && version == 1
    case DidChange(_, version, _) =>
      !a.DidClose? && (version == a.version + 1 || version == a.version == U32_MAX)
    case DidClose(_) => !a.DidClose?
  }

  /** (didOpen version 1, didChange with versions rising by one, didClose)*, possibly
      unfinished; a version stays at the largest `u32` once it is there. */
  predicate FollowsProtocol(log: seq<Note>) {
    && (log != [] ==> log[0].DidOpen? && log[0].version == 1)
    && (forall i :: 0 <= i < |log| - 1 ==> MayFollow(log[i], log[i + 1]))
  }

  /** The server regards the document as open, at this version. */
  function ServerVersion(log: seq<Note>): Option<u32> {
    if log == [] || log[|log| - 1].DidClose? then None else Some(log[|log| - 1].version)
  }

  function VersionIn(documents: map<string, u32>, path: string): Option<u32> {
    if path in documents then Some(documents[path]) else None
  }

  ghost predicate Injective(uri: string -> string) {
    forall p, q :: uri(p) == uri(q) ==> p == q
  }

  /** Every document's notifications follow the protocol, and the registry holds
      exactly the open documents at the versions the server has been told. */
  ghost predicate Conforms(uri: string -> string, documents: map<string, u32>, log: seq<Note>) {
    && (forall u :: FollowsProtocol(ForUri(log, u)))
    && (forall path :: ServerVersion(ForUri(log, uri(path))) == VersionIn(documents, path))
  }

  lemma ProtocolGrows(log: seq<Note>, note: Note)
    requires FollowsProtocol(log)
    requires if log == [] then note.DidOpen? && note.version == 1 else MayFollow(log[|log| - 1], note)
    ensures FollowsProtocol(log + [note])
  {
  }

  lemma ForUriAppend(log: seq<Note>, note: Note, u: string)
    ensures ForUri(log + [note], u) == ForUri(log, u) + (if note.uri == u then [note] else [])
  {
    assert (log + [note])[..|log|] == log;
  }

  /** The notification a step attempts, if any. */
  function NoteOf(uri: string -> string, s: State, e: Event): Option<Note> {
    match e
    case Sync(path, text, resolved, _) =>
      if !resolved then None
      else if path in s.documents then Some(DidChange(uri(path), SatNext(s.documents[path]), text))
      else Some(DidOpen(uri(path), 1, text))
    case Close(path, resolved, _) =>
      if !resolved || path !in s.documents then None else Some(DidClose(uri(path)))
  }

  function Notes(note: Option<Note>): seq<Note> {
    if note.Some? then [note.value] else []
  }

  /** A step attempts its note, delivers it when the write succeeds, and moves the
      registry to the version the note tells. */
  lemma StepSends(uri: string -> string, s: State, e: Event)
    ensures var note := NoteOf(uri, s, e); var t := Step(uri, s, e);
      && t.sent == s.sent + Notes(note)
      && t.delivered == s.delivered + (if e.written then Notes(note) else [])
      && (note.Some? ==> note.value.uri == uri(e.path))
      && (note.None? ==> t.documents == s.documents)
      && (note.Some? ==>
           VersionIn(t.documents, e.path) == if note.value.DidClose? then None else Some(note.value.version))
  {
  }

  lemma StepElsewhere(uri: string -> string, s: State, e: Event, path: string)
    requires path != e.path
    ensures VersionIn(Step(uri, s, e).documents, path) == VersionIn(s.documents, path)
  {
  }

  /** A note fits a log that the server and the client agree on. */
  lemma NoteFits(uri: string -> string, s: State, e: Event, log: seq<Note>)
    requires NoteOf(uri, s, e).Some? && FollowsProtocol(log) && ServerVersion(log) == VersionIn(s.documents, e.path)
    ensures FollowsProtocol(log + [NoteOf(uri, s, e).value])
  {
    ProtocolGrows(log, NoteOf(uri, s, e).value);
  }

  lemma NoteFollows(uri: string -> string, s: State, e: Event, log: seq<Note>, u: string)
    requires FollowsProtocol(ForUri(log, u))
    requires u == uri(e.path) ==> ServerVersion(ForUri(log, u)) == VersionIn(s.documents, e.path)
    ensures FollowsProtocol(ForUri(log + Notes(NoteOf(uri, s, e)), u))
  {
    StepSends(uri, s, e);
    var note := NoteOf(uri, s, e);
    if note.Some? {
      ForUriAppend(log, note.value, u);
      if u == uri(e.path) {
        NoteFits(uri, s, e, ForUri(log, u));
      }
    } else {
      assert log + [] == log;
    }
  }

  lemma NoteTracks(uri: string -> string, s: State, e: Event, log: seq<Note>, path: string)
    requires uri(path) == uri(e.path) ==> path == e.path
    requires ServerVersion(ForUri(log, uri(path))) == VersionIn(s.documents, path)
    ensures ServerVersion(ForUri(log + Notes(NoteOf(uri, s, e)), uri(path))) ==
      VersionIn(Step(uri, s, e).documents, path)
  {
    StepSends(uri, s, e);
    var note := NoteOf(uri, s, e);
    if note.None? {
      assert log + [] == log;
    } else if path == e.path {
      ForUriAppend(log, note.value, uri(path));
      VersionAfter(ForUri(log, uri(path)), note.value);
    } else {
      StepElsewhere(uri, s, e, path);
      ForUriAppend(log, note.value, uri(path));
      assert ForUri(log, uri(path)) + [] == ForUri(log, uri(path));
    }
  }

  lemma VersionAfter(log: seq<Note>, note: Note)
    ensures ServerVersion(log + [note]) == if note.DidClose? then None else Some(note.version)
  {
  }

  /** A log that receives every note keeps conforming. */
  lemma NoteConforms(uri: string -> string, s: State, e: Event, log: seq<Note>)
    requires Injective(uri) && Conforms(uri, s.documents, log)
    ensures Conforms(uri, Step(uri, s, e).documents, log + Notes(NoteOf(uri, s, e)))
  {
    forall u
      ensures FollowsProtocol(ForUri(log + Notes(NoteOf(uri, s, e)), u))
    {
      assert ServerVersion(ForUri(log, uri(e.path))) == VersionIn(s.documents, e.path);
      NoteFollows(uri, s, e, log, u);
    }
    forall path
      ensures ServerVersion(ForUri(log + Notes(NoteOf(uri, s, e)), uri(path))) ==
        VersionIn(Step(uri, s, e).documents, path)
    {
      assert ServerVersion(ForUri(log, uri(path))) == VersionIn(s.documents, path);
      NoteTracks(uri, s, e, log, path);
    }
  }

  lemma {:induction false} RunConforms(uri: string -> string, events: seq<Event>)
    requires Injective(uri)
    ensures Conforms(uri, Run(uri, events).documents, Run(uri, events).sent)
  {
    if events != [] {
      RunConforms(uri, events[..|events| - 1]);
      var s, e := Run(uri, events[..|events| - 1]), events[|events| - 1];
      NoteConforms(uri, s, e, s.sent);
      StepSends(uri, s, e);
    }
  }

  /** The attempted notifications conform on every run exactly when no two paths share
      a URI: with a shared one, opening both paths opens the document twice. */
  lemma ProtocolNeedsOneKeyPerUri(uri: string -> string)
    ensures (forall events :: Conforms(uri, Run(uri, events).documents, Run(uri, events).sent)) <==> Injective(uri)
  {
    if Injective(uri) {
      forall events
        ensures Conforms(uri, Run(uri, events).documents, Run(uri, events).sent)
      {
        RunConforms(uri, events);
      }
    } else {
      var p, q :| uri(p) == uri(q) && p != q;
      SharedUriOpensTwice(uri, p, q);
      var events := [Sync(p, [], true, true), Sync(q, [], true, true)];
      var log := ForUri(Run(uri, events).sent, uri(p));
      assert !MayFollow(log[0], log[0 + 1]);
      assert !FollowsProtocol(log);
      assert !Conforms(uri, Run(uri, events).documents, Run(uri, events).sent);
    }
  }

  lemma SharedUriOpensTwice(uri: string -> string, p: string, q: string)
    requires uri(p) == uri(q) && p != q
    ensures var events := [Sync(p, [], true, true), Sync(q, [], true, true)];
      ForUri(Run(uri, events).sent, uri(p)) == [DidOpen(uri(p), 1, []), DidOpen(uri(p), 1, [])]
  {
    var events := [Sync(p, [], true, true), Sync(q, [], true, true)];
    var open := DidOpen(uri(p), 1, []);
    assert events[..1] == [Sync(p, [], true, true)] && events[..1][..0] == [];
    assert Run(uri, events[..1]) == State(map[p := 1], [open], [open]);
    assert Run(uri, events).sent == [open, open];
    ForUriAppend([open], open, uri(p));
    ForUriAppend([], open, uri(p));
    assert [] + [open] == [open] && [open] + [open] == [open, open];
  }

  // ----- what the server receives when writes can fail

  /** The write succeeds, or there is nothing to write, or what is lost is a change that
      repeats the largest version. */
  predicate Harmless(uri: string -> string, s: State, e: Event) {
    var note := NoteOf(uri, s, e);
    e.written || note.None? || (note.value.DidChange? && VersionIn(s.documents, e.path) == Some(note.value.version))
  }

  lemma HarmlessConforms(uri: string -> string, s: State, e: Event)
    requires Injective(uri) && Conforms(uri, s.documents, s.delivered) && Harmless(uri, s, e)
    ensures Conforms(uri, Step(uri, s, e).documents, Step(uri, s, e).delivered)
  {
    StepSends(uri, s, e);
    if e.written {
      NoteConforms(uri, s, e, s.delivered);
    } else {
      assert Step(uri, s, e).delivered == s.delivered;
      assert Step(uri, s, e).documents == s.documents;
    }
  }

  /** Any other failed write leaves the registry and the server apart at once. */
  lemma HarmDiverges(uri: string -> string, s: State, e: Event)
    requires Conforms(uri, s.documents, s.delivered) && !Harmless(uri, s, e)
    ensures !Conforms(uri, Step(uri, s, e).documents, Step(uri, s, e).delivered)
  {
    StepSends(uri, s, e);
    var t := Step(uri, s, e);
    assert t.delivered == s.delivered;
    assert ServerVersion(ForUri(s.delivered, uri(e.path))) == VersionIn(s.documents, e.path);
    assert VersionIn(t.documents, e.path) != VersionIn(s.documents, e.path);
    assert ServerVersion(ForUri(t.delivered, uri(e.path))) != VersionIn(t.documents, e.path);
  }

  predicate HarmlessUpTo(uri: string -> string, events: seq<Event>, n: nat)
    requires n <= |events|
  {
    forall i :: 0 <= i < n ==> Harmless(uri, Run(uri, events[..i]), events[i])
  }

  ghost predicate DeliveredThroughout(uri: string -> string, events: seq<Event>) {
    forall n :: 0 <= n <= |events| ==> Conforms(uri, Run(uri, events[..n]).documents, Run(uri, events[..n]).delivered)
  }

  lemma RunOneMore(uri: string -> string, events: seq<Event>, n: nat)
    requires n < |events|
    ensures Run(uri, events[..n + 1]) == Step(uri, Run(uri, events[..n]), events[n])
  {
    assert events[..n + 1][..n] == events[..n];
  }

  lemma {:induction false} HarmlessRunConforms(uri: string -> string, events: seq<Event>, n: nat)
    requires n <= |events| && Injective(uri) && HarmlessUpTo(uri, events, n)
    ensures Conforms(uri, Run(uri, events[..n]).documents, Run(uri, events[..n]).delivered)
  {
    if n > 0 {
      HarmlessRunConforms(uri, events, n - 1);
      HarmlessConforms(uri, Run(uri, events[..n - 1]), events[n - 1]);
      RunOneMore(uri, events, n - 1);
    } else {
      assert events[..0] == [];
    }
  }

  lemma {:induction false} FirstHarm(uri: string -> string, events: seq<Event>, n: nat) returns (i: nat)
    requires n <= |events| && !HarmlessUpTo(uri, events, n)
    ensures i < n && HarmlessUpTo(uri, events, i) && !Harmless(uri, Run(uri, events[..i]), events[i])
  {
    if HarmlessUpTo(uri, events, n - 1) {
      i := n - 1;
    } else {
      i := FirstHarm(uri, events, n - 1);
    }
  }

  /** With one key per URI, what the server has received follows the protocol and the
      registry holds exactly the open documents, at every point of the run, exactly when
      no write fails except of a change that repeats the largest version. */
  lemma DeliveredConformsExactly(uri: string -> string, events: seq<Event>)
    requires Injective(uri)
    ensures DeliveredThroughout(uri, events) <==> HarmlessUpTo(uri, events, |events|)
  {
    if HarmlessUpTo(uri, events, |events|) {
      forall n | 0 <= n <= |events|
        ensures Conforms(uri, Run(uri, events[..n]).documents, Run(uri, events[..n]).delivered)
      {
        HarmlessRunConforms(uri, events, n);
      }
    } else {
      var i := FirstHarm(uri, events, |events|);
      HarmlessRunConforms(uri, events, i);
      HarmDiverges(uri, Run(uri, events[..i]), events[i]);
      RunOneMore(uri, events, i);
    }
  }

  /** After one failed open the server's first notification of the document is a change. */
  lemma FailedOpenBreaksProtocol(uri: string -> string, p: string)
    ensures var events := [Sync(p, [], true, false), Sync(p, [], true, true)];
      Run(uri, events).delivered == [DidChange(uri(p), 2, [])]
    ensures !FollowsProtocol([DidChange(uri(p), 2, [])])
  {
    var events := [Sync(p, [], true, false), Sync(p, [], true, true)];
    assert events[..1] == [Sync(p, [], true, false)] && events[..1][..0] == [];
    assert Run(uri, events[..1]) == State(map[p := 1], [DidOpen(uri(p), 1, [])], []);
  }
}
