/**
 The request handlers of the Alexa skill (internal/alexa/handler.go). The whole player state rides
 in the token, so a handler is a function of the library and the request.
 */
module Skill {
  import opened Wrappers
  import opened Queue
  import Shuffle

  /** A token string: missing, one that DecodeToken refuses, or the encoding of a token. */
  datatype Wire = Absent | Garbled | Encoded(q: QueueToken)

  function DecodeToken(w: Wire): Option<QueueToken> {
    if w.Encoded? then Some(w.q) else None
  }

  /** A spoken slot value, trimmed, with its bytes. */
  datatype Slot = Slot(text: string, bytes: seq<bv8>)

  datatype Intent =
    | PlayMusic | PlayArtist(slot: Slot) | PlayAlbum(slot: Slot)
    | Next | Previous | StartOver | Stop | Resume | ShuffleOn | ShuffleOff | Loop | Help | Fallback | OtherIntent

  datatype Kind = Launch | Intended(intent: Intent) | NearlyFinished | OtherEvent

  datatype Request = Request(kind: Kind, requestId: seq<bv8>, sessionId: seq<bv8>, token: Wire, playerToken: Wire)

  datatype Behavior = ReplaceAll | Enqueue

  datatype Directive = Directive(track: Track, token: QueueToken, behavior: Behavior, expectedPrevious: Wire)

  /** The sentences the skill says. */
  datatype Speech =
    | Silent | PlayingLibrary | PlayingShuffled | PlayingNamed(name: string) | ShuffleIsOn | ShuffleIsOff
    | Unreachable | LibraryEmpty | NothingMatches | EndReached | NothingPlaying | NothingToResume
    | WhichArtist | WhichAlbum | NoLooping | HelpText | NotUnderstood | CannotYet

  /** Panic is Go's index-out-of-range panic. */
  datatype Response = Empty | Speak(text: Speech, end: bool) | StopPlayback | Play(d: Directive, speech: Speech) | Panic

  /** The library as loadTracks returns it; None is a repository error. */
  type Library = Option<seq<Track>>

  function CurrentToken(req: Request): Wire {
    if req.token != Absent then req.token else req.playerToken
  }

  function FreshSeed(req: Request): bv64 { Shuffle.SeedOf(req.requestId + req.sessionId) }

  function PlayOrdered(ordered: seq<Track>, tok: QueueToken, speech: Speech, behavior: Behavior): Response {
    if 0 <= tok.idx < |ordered| then Play(Directive(ordered[tok.idx], tok, behavior, Absent), speech) else Panic
  }

  function PlayFrom(lib: Library, tok: QueueToken, speech: Speech): Response {
    if lib.None? then Speak(Unreachable, true)
    else
      var ordered := Ordered(lib.value, tok);
      if |ordered| == 0 then
        Speak(if tok.mode == All then LibraryEmpty else NothingMatches, true)
      else if tok.idx < 0 || tok.idx >= |ordered| then PlayOrdered(ordered, tok.At(0), speech, ReplaceAll)
      else PlayOrdered(ordered, tok, speech, ReplaceAll)
  }

  function StartLibrary(lib: Library, req: Request, speech: Speech): Response {
    PlayFrom(lib, QueueToken(All, "", 0, FreshSeed(req)), speech)
  }

  function OnNearlyFinished(lib: Library, req: Request): Response {
    var cur := DecodeToken(req.token);
    if cur.None? || lib.None? then Empty
    else
      var ordered := Ordered(lib.value, cur.value);
      var next := WrapAdd(cur.value.idx, 1);
      if next >= |ordered| then Empty
      else if next < 0 then Panic
      else Play(Directive(ordered[next], cur.value.At(next), Enqueue, req.token), Silent)
  }

  function Step(lib: Library, req: Request, delta: Int): Response {
    var cur := DecodeToken(CurrentToken(req));
    if cur.None? then StartLibrary(lib, req, PlayingLibrary)
    else if lib.None? then Speak(Unreachable, true)
    else
      var ordered := Ordered(lib.value, cur.value);
      if |ordered| == 0 then Speak(LibraryEmpty, true)
      else
        var moved := WrapAdd(cur.value.idx, delta);
        var idx := if moved < 0 then 0 else moved;
        if idx >= |ordered| then Speak(EndReached, true)
        else PlayOrdered(ordered, cur.value.At(idx), Silent, ReplaceAll)
  }

  /** Replay the current track: restartCurrent and resume differ in what they say. */
  function Replay(lib: Library, cur: QueueToken, nothing: Speech): Response {
    if lib.None? then Speak(Unreachable, true)
    else
      var ordered := Ordered(lib.value, cur);
      if cur.idx < 0 || cur.idx >= |ordered| then Speak(nothing, true)
      else PlayOrdered(ordered, cur, Silent, ReplaceAll)
  }

  function RestartCurrent(lib: Library, req: Request): Response {
    var cur := DecodeToken(CurrentToken(req));
    if cur.None? then Step(lib, req, 0) else Replay(lib, cur.value, NothingPlaying)
  }

  function OnResume(lib: Library, req: Request): Response {
    var cur := DecodeToken(CurrentToken(req));
    if cur.None? then StartLibrary(lib, req, PlayingLibrary)
    else Replay(lib, cur.value, NothingToResume)
  }

  function Reshuffle(lib: Library, req: Request, on: bool): Response {
    var decoded := DecodeToken(CurrentToken(req));
    var cur := if decoded.Some? then decoded.value else QueueToken(All, "", 0, 0);
    PlayFrom(lib, cur.(idx := 0, seed := if on then FreshSeed(req) else 0), if on then ShuffleIsOn else ShuffleIsOff)
  }

  function PlaySlot(lib: Library, req: Request, mode: Mode, slot: Slot, question: Speech): Response {
    if slot.text == "" then Speak(question, false)
    else
      var seed := Shuffle.SeedOf(req.requestId + slot.bytes);
      PlayFrom(lib, QueueToken(mode, slot.text, 0, seed), PlayingNamed(slot.text))
  }

  function OnIntent(lib: Library, req: Request, intent: Intent): Response {
    match intent
    case PlayMusic => StartLibrary(lib, req, PlayingShuffled)
    case PlayArtist(slot) => PlaySlot(lib, req, Artist, slot, WhichArtist)
    case PlayAlbum(slot) => PlaySlot(lib, req, Album, slot, WhichAlbum)
    case Next => Step(lib, req, 1)
    case Previous => Step(lib, req, -1)
    case StartOver => RestartCurrent(lib, req)
    case Stop => StopPlayback
    case Resume => OnResume(lib, req)
    case ShuffleOn => Reshuffle(lib, req, true)
    case ShuffleOff => Reshuffle(lib, req, false)
    case Loop => Speak(NoLooping, false)
    case Help => Speak(HelpText, false)
    case Fallback => Speak(NotUnderstood, false)
    case OtherIntent => Speak(CannotYet, false)
  }

  function Route(lib: Library, req: Request): Response {
    match req.kind
    case Launch => StartLibrary(lib, req, PlayingShuffled)
    case Intended(intent) => OnIntent(lib, req, intent)
    case NearlyFinished => OnNearlyFinished(lib, req)
    case OtherEvent => Empty
  }

  // ---- One request -------------------------------------------------------------------------------

  /** A Go slice is no longer than an int can say. */
  predicate FitsMemory(lib: Library) { lib.Some? ==> |lib.value| <= MAX_INT }

  /** The directive names a position of the order its own token rebuilds, and the track there. */
  predicate PlaysItsToken(lib: Library, d: Directive) {
    && lib.Some? && 0 <= d.token.idx < |Ordered(lib.value, d.token)|
    && d.track == Ordered(lib.value, d.token)[d.token.idx]
  }

  lemma OrderedFits(lib: seq<Track>, q: QueueToken)
    ensures |Ordered(lib, q)| <= |lib|
    ensures forall i: Int :: Ordered(lib, q.At(i)) == Ordered(lib, q)
  {
    hide Shuffle.Shuffled, Wanted, Filtered;
    OrderedPermutes(lib, q);
    FilteredNoLonger(lib, q.mode, q.key);
    assert |Ordered(lib, q)| == |multiset(Ordered(lib, q))| == |Filtered(lib, q.mode, q.key)|;
  }

  lemma {:induction false} FilteredNoLonger(all: seq<Track>, mode: Mode, key: string)
    ensures |Filtered(all, mode, key)| <= |all|
  {
    if |all| > 0 {
      FilteredNoLonger(all[..|all| - 1], mode, key);
    }
  }

  lemma PlayFromIsSound(lib: Library, tok: QueueToken, speech: Speech)
    ensures var r := PlayFrom(lib, tok, speech); !r.Panic? && (r.Play? ==> PlaysItsToken(lib, r.d))
  {
    hide Ordered;
    if lib.Some? {
      assert Ordered(lib.value, tok.At(0)) == Ordered(lib.value, tok) by { OrderedFits(lib.value, tok); }
    }
  }

  lemma StepIsSound(lib: Library, req: Request, delta: Int)
    ensures var r := Step(lib, req, delta); !r.Panic? && (r.Play? ==> PlaysItsToken(lib, r.d))
  {
    hide Ordered, FreshSeed;
    PlayFromIsSound(lib, QueueToken(All, "", 0, FreshSeed(req)), PlayingLibrary);
    var cur := DecodeToken(CurrentToken(req));
    if lib.Some? && cur.Some? {
      OrderedFits(lib.value, cur.value);
    }
  }

  ghost predicate Sound(lib: Library, r: Response) { !r.Panic? && (r.Play? ==> PlaysItsToken(lib, r.d)) }

  lemma PlaySlotIsSound(lib: Library, req: Request, mode: Mode, slot: Slot, question: Speech)
    ensures Sound(lib, PlaySlot(lib, req, mode, slot, question))
  {
    hide PlayFrom, PlaysItsToken;
    PlayFromIsSound(lib, QueueToken(mode, slot.text, 0, Shuffle.SeedOf(req.requestId + slot.bytes)),
                      PlayingNamed(slot.text));
  }

  lemma ReshuffleIsSound(lib: Library, req: Request, on: bool)
    ensures Sound(lib, Reshuffle(lib, req, on))
  {
    hide PlayFrom, PlaysItsToken;
    var decoded := DecodeToken(CurrentToken(req));
    var cur := if decoded.Some? then decoded.value else QueueToken(All, "", 0, 0);
    PlayFromIsSound(lib, cur.(idx := 0, seed := if on then FreshSeed(req) else 0),
                      if on then ShuffleIsOn else ShuffleIsOff);
  }

  lemma IntentIsSound(lib: Library, req: Request, intent: Intent)
    ensures Sound(lib, OnIntent(lib, req, intent))
  {
    hide Ordered, FreshSeed, Step, PlayFrom, Shuffle.SeedOf, PlaysItsToken, PlaySlot, Reshuffle, Replay;
    match intent
    case PlayMusic => PlayFromIsSound(lib, QueueToken(All, "", 0, FreshSeed(req)), PlayingShuffled);
    case PlayArtist(slot) => PlaySlotIsSound(lib, req, Artist, slot, WhichArtist);
    case PlayAlbum(slot) => PlaySlotIsSound(lib, req, Album, slot, WhichAlbum);
    case Next => StepIsSound(lib, req, 1);
    case Previous => StepIsSound(lib, req, -1);
    case StartOver =>
      StepIsSound(lib, req, 0);
      ReplayIsSound(lib, req, NothingPlaying);
    case Resume =>
      PlayFromIsSound(lib, QueueToken(All, "", 0, FreshSeed(req)), PlayingLibrary);
      ReplayIsSound(lib, req, NothingToResume);
    case ShuffleOn => ReshuffleIsSound(lib, req, true);
    case ShuffleOff => ReshuffleIsSound(lib, req, false);
    case _ =>
  }

  lemma ReplayIsSound(lib: Library, req: Request, nothing: Speech)
    ensures var cur := DecodeToken(CurrentToken(req));
            cur.Some? ==> var r := Replay(lib, cur.value, nothing); !r.Panic? && (r.Play? ==> PlaysItsToken(lib, r.d))
  {
    hide Ordered;
  }

  /** Every Play directive is sound, and a request crashes the handler exactly when it is a
      nearly-finished event whose token's index is below -1 or is the largest int. */
  lemma RouteIsSound(lib: Library, req: Request)
    requires FitsMemory(lib)
    ensures var r := Route(lib, req);
            && (r.Play? ==> PlaysItsToken(lib, r.d))
            && (r.Panic? <==> req.kind.NearlyFinished? && lib.Some? && req.token.Encoded? &&
                              (req.token.q.idx < -1 || req.token.q.idx == MAX_INT))
  {
    match req.kind
    case Launch => PlayFromIsSound(lib, QueueToken(All, "", 0, FreshSeed(req)), PlayingShuffled);
    case Intended(intent) => IntentIsSound(lib, req, intent);
    case NearlyFinished =>
      hide Ordered;
      if lib.Some? && req.token.Encoded? {
        OrderedFits(lib.value, req.token.q);
      }
    case OtherEvent =>
  }

  // ---- Runs --------------------------------------------------------------------------------------

  datatype Exchange = Exchange(lib: Library, req: Request)

  function TokensOf(r: Response): set<QueueToken> { if r.Play? then {r.d.token} else {} }

  /** The tokens the skill has issued in a run of requests, the library changing as it may. */
  function Issued(run: seq<Exchange>): set<QueueToken> {
    if |run| == 0 then {}
    else
      var last := run[|run| - 1];
      Issued(run[..|run| - 1]) + TokensOf(Route(last.lib, last.req))
  }

  predicate KnownToken(w: Wire, issued: set<QueueToken>) { w.Encoded? ==> w.q in issued }

  /** Every token a request carries was issued by the skill earlier in the run. */
  predicate Genuine(run: seq<Exchange>) {
    forall i :: 0 <= i < |run| ==>
      && FitsMemory(run[i].lib)
      && KnownToken(run[i].req.token, Issued(run[..i])) && KnownToken(run[i].req.playerToken, Issued(run[..i]))
  }

  lemma {:induction false} IssuedInRange(run: seq<Exchange>)
    requires Genuine(run)
    ensures forall q :: q in Issued(run) ==> 0 <= q.idx < MAX_INT
  {
    hide Route;
    if |run| > 0 {
      var front, last := run[..|run| - 1], run[|run| - 1];
      GenuinePrefix(run, |run| - 1);
      IssuedInRange(front);
      RouteIsSound(last.lib, last.req);
      var r := Route(last.lib, last.req);
      if r.Play? {
        OrderedFits(last.lib.value, r.d.token);
      }
    }
  }

  lemma GenuinePrefix(run: seq<Exchange>, n: nat)
    requires Genuine(run) && n <= |run|
    ensures Genuine(run[..n])
  {
    hide Issued, FitsMemory;
    forall i | 0 <= i < n
      ensures FitsMemory(run[..n][i].lib) && KnownToken(run[..n][i].req.token, Issued(run[..n][..i])) &&
              KnownToken(run[..n][i].req.playerToken, Issued(run[..n][..i]))
    {
      assert run[..n][..i] == run[..i];
    }
  }

  /** In every run on genuine tokens no request crashes, and every Play directive carries an in-range
      index whose track, in the library of that request, is the one streamed. */
  lemma RunIsSound(run: seq<Exchange>, i: nat)
    requires Genuine(run) && i < |run|
    ensures var r := Route(run[i].lib, run[i].req);
            !r.Panic? && (r.Play? ==> PlaysItsToken(run[i].lib, r.d))
  {
    hide Route;
    GenuinePrefix(run, i);
    IssuedInRange(run[..i]);
    RouteIsSound(run[i].lib, run[i].req);
  }

  // ---- Next, Previous and the gapless enqueue ----------------------------------------------------

  /** The nearly-finished event enqueues exactly what Next would play, and nothing when Next would
      say the end is reached. */
  lemma EnqueueIsNext(lib: Library, finishing: Request, skipping: Request)
    requires finishing.token.Encoded? && CurrentToken(skipping) == finishing.token
    requires -1 <= finishing.token.q.idx < MAX_INT && lib.Some?
    ensures var enqueued, next := OnNearlyFinished(lib, finishing), Step(lib, skipping, 1);
            && (enqueued.Play? <==> next.Play?)
            && (enqueued.Play? ==> enqueued.d.track == next.d.track && enqueued.d.token == next.d.token &&
                                   enqueued.d.expectedPrevious == finishing.token)
            && (!enqueued.Play? ==> enqueued == Empty && next.Speak?)
  {
    hide Ordered;
  }

  /** Previous, on the token Next played, plays the track Next left; from an index below 0, where Next
      starts at 0, it cannot. */
  lemma PreviousUndoesNext(lib: Library, skipping: Request, returning: Request)
    requires CurrentToken(skipping).Encoded? && lib.Some?
    requires Step(lib, skipping, 1).Play? && CurrentToken(returning) == Encoded(Step(lib, skipping, 1).d.token)
    ensures var q, back := CurrentToken(skipping).q, Step(lib, returning, -1);
            && back.Play?
            && (back.d.token == q <==> 0 <= q.idx < MAX_INT)
            && (0 <= q.idx < MAX_INT ==>
                  q.idx < |Ordered(lib.value, q)| && back.d.track == Ordered(lib.value, q)[q.idx])
  {
    hide Ordered;
    OrderedFits(lib.value, CurrentToken(skipping).q);
  }

  function NextRequest(q: QueueToken): Request { Request(Intended(Next), [], [], Absent, Encoded(q)) }

  /** The tracks played by issuing Next until it no longer plays. */
  function NextsFrom(lib: seq<Track>, q: QueueToken): seq<Track>
    requires 0 <= q.idx < MAX_INT
    decreases |Ordered(lib, q)| - q.idx
  {
    var r := Step(Some(lib), NextRequest(q), 1);
    if r.Play? && r.d.token.idx < MAX_INT then
      assert Ordered(lib, r.d.token) == Ordered(lib, q) by { OrderedFits(lib, q); }
      [r.d.track] + NextsFrom(lib, r.d.token)
    else []
  }

  lemma {:induction false} NextsVisitTheRest(lib: seq<Track>, q: QueueToken)
    requires |lib| <= MAX_INT && 0 <= q.idx < |Ordered(lib, q)|
    ensures q.idx < MAX_INT && NextsFrom(lib, q) == Ordered(lib, q)[q.idx + 1..]
    decreases |Ordered(lib, q)| - q.idx
  {
    hide Ordered;
    OrderedFits(lib, q);
    var ordered := Ordered(lib, q);
    if q.idx + 1 < |ordered| {
      var r := Step(Some(lib), NextRequest(q), 1);
      assert r.d.token == q.At(q.idx + 1) && r.d.track == ordered[q.idx + 1];
      NextsVisitTheRest(lib, q.At(q.idx + 1));
      assert ordered[q.idx + 1..] == [ordered[q.idx + 1]] + ordered[q.idx + 2..];
    }
  }

  /** Starting a queue and issuing Next to the end plays the rebuilt order from first to last: every
      track of the library that the token selects, each exactly once. */
  lemma WholeQueuePlays(lib: seq<Track>, tok: QueueToken, speech: Speech)
    requires UniqueIds(lib) && |lib| <= MAX_INT && tok.idx == 0
    ensures var start := PlayFrom(Some(lib), tok, speech);
            if exists t :: t in lib && Wanted(t, tok.mode, tok.key)
            then && start.Play? && start.d.token == tok
                 && [start.d.track] + NextsFrom(lib, tok) == Ordered(lib, tok)
                 && multiset(Ordered(lib, tok)) == multiset(Filtered(lib, tok.mode, tok.key))
                 && UniqueIds(Ordered(lib, tok))
            else start.Speak?
  {
    hide Wanted, Ordered, NextsFrom, Filtered, UniqueIds;
    var ordered := Ordered(lib, tok);
    OrderedMembers(lib, tok);
    if |ordered| > 0 {
      assert Wanted(ordered[0], tok.mode, tok.key) && ordered[0] in lib;
      NextsVisitTheRest(lib, tok);
      assert ordered == [ordered[0]] + ordered[1..];
    }
  }

  /** The order holds the selected tracks of the library, all with ids of their own. */
  lemma OrderedMembers(lib: seq<Track>, tok: QueueToken)
    requires UniqueIds(lib)
    ensures forall t :: t in Ordered(lib, tok) <==> t in lib && Wanted(t, tok.mode, tok.key)
    ensures multiset(Ordered(lib, tok)) == multiset(Filtered(lib, tok.mode, tok.key))
    ensures UniqueIds(Ordered(lib, tok))
  {
    hide Wanted, Ordered, Filtered, UniqueIds;
    OrderedPermutes(lib, tok);
    FilteredIds(lib, tok.mode, tok.key);
    UniqueIdsPermute(Filtered(lib, tok.mode, tok.key), Ordered(lib, tok));
    forall t: Track
      ensures t in Ordered(lib, tok) <==> t in Filtered(lib, tok.mode, tok.key)
    {
      assert t in Ordered(lib, tok) <==> t in multiset(Ordered(lib, tok));
    }
  }
}
