/** One grab at a time, the newest request next: the request state every frame source has, and the wlroots
    source with its frame object, its watchdog and its one copy per frame
    (src/capture/framesource.cpp, src/capture/wlrframesource.cpp). */
module CaptureRequests {
  import opened Basics
  import opened ScanRegion

  /** taken lists, in order, which of the requested rectangles were issued. */
  ghost predicate TakenOk(requested: seq<Rect>, taken: seq<nat>) {
    && (forall i :: 0 <= i < |taken| ==> taken[i] < |requested|)
    && (forall i, j :: 0 <= i < j < |taken| ==> taken[i] < taken[j])
  }

  /** Nothing newer than the last issued rectangle was requested, or the newest is remembered. */
  ghost predicate LatestWins(requested: seq<Rect>, taken: seq<nat>, inFlight: bool, pending: Option<Rect>) {
    && (requested != [] ==> taken != [])
    && (pending.Some? ==> inFlight && requested != [] && pending.value == Last(requested))
    && (pending.None? && requested != [] ==> Last(taken) == |requested| - 1)
    && (pending.Some? ==> Last(taken) < |requested| - 1)
  }

  class FrameSource {
    var inFlight: bool
    var pending: Option<Rect>
    ghost var requested: seq<Rect>
    ghost var taken: seq<nat>

    ghost predicate Valid()
      reads this
    {
      && TakenOk(requested, taken)
      && LatestWins(requested, taken, inFlight, pending)
      && (inFlight ==> taken != [])
    }

    /** The rectangle of the last issued grab. */
    ghost function Current(): Rect
      requires Valid() && taken != []
      reads this
    {
      requested[Last(taken)]
    }

    constructor ()
      ensures Valid() && !inFlight && requested == [] && taken == []
    {
      inFlight, pending, requested, taken := false, None, [], [];
    }

    method BeginRequest(logical: Rect) returns (now: Option<Rect>)
      requires Valid()
      modifies this
      ensures Valid() && inFlight && requested == old(requested) + [logical]
      ensures old(inFlight) ==> now.None? && taken == old(taken) && pending == Some(logical)
      ensures !old(inFlight) ==> now == Some(logical) && taken == old(taken) + [|old(requested)|] && pending.None?
    {
      requested := requested + [logical];
      if inFlight {
        pending := Some(logical);
        return None;
      }
      inFlight := true;
      pending := None;
      taken := taken + [|requested| - 1];
      return Some(logical);
    }

    /** The newest request made while the grab was in flight, which is in flight now. */
    method EndRequest() returns (next: Option<Rect>)
      requires Valid() && inFlight
      modifies this
      ensures Valid() && inFlight == next.Some? && pending.None? && requested == old(requested)
      ensures next == old(pending)
      ensures next.None? ==> taken == old(taken)
      ensures next.Some? ==>
        requested != [] && taken == old(taken) + [|requested| - 1] && next.value == Last(requested)
    {
      inFlight := false;
      if pending.None? {
        return None;
      }
      next := pending;
      pending := None;
      inFlight := true;
      taken := taken + [|requested| - 1];
    }
  }

  // ---------------------------------------------------------------- the double

  /** What the handlers of one signal request, in order. */
  type Reaction = seq<Rect>

  /** The rectangles of the first n issued grabs. */
  ghost function IssuedRects(requested: seq<Rect>, taken: seq<nat>, n: nat): seq<Rect>
    requires TakenOk(requested, taken) && n <= |taken|
  {
    seq(n, i requires 0 <= i < n => requested[taken[i]])
  }

  /** More requests change nothing about the issued ones. */
  lemma IssuedStay(requested: seq<Rect>, more: seq<Rect>, taken: seq<nat>)
    requires TakenOk(requested, taken) && requested <= more
    ensures TakenOk(more, taken)
    ensures IssuedRects(more, taken, |taken|) == IssuedRects(requested, taken, |taken|)
  {
  }

  /** Issuing the newest request. */
  lemma IssuedNewest(requested: seq<Rect>, taken: seq<nat>, after: seq<nat>)
    requires TakenOk(requested, taken) && TakenOk(requested, after)
    requires requested != [] && after == taken + [|requested| - 1]
    ensures IssuedRects(requested, after, |after|) == IssuedRects(requested, taken, |taken|) + [Last(requested)]
  {
  }

  /** The source that answers through the event loop. queued holds the replies the loop still has to
      deliver. */
  class FakeFrameSource {
    const requests: FrameSource
    var queued: seq<Rect>
    var requestedRects: seq<Rect>
    var issuedRects: seq<Rect>

    ghost predicate Valid()
      reads this, requests
    {
      && requests.Valid()
      && requestedRects == requests.requested
      && |issuedRects| + |queued| == |requests.taken|
      && issuedRects + queued == IssuedRects(requests.requested, requests.taken, |requests.taken|)
      && |queued| == if requests.inFlight then 1 else 0
    }

    constructor ()
      ensures Valid() && requestedRects == [] && fresh(requests)
    {
      requests := new FrameSource();
      queued, requestedRects, issuedRects := [], [], [];
    }

    method Grab(logical: Rect)
      requires Valid()
      modifies this, requests
      ensures Valid() && requestedRects == old(requestedRects) + [logical] && issuedRects == old(issuedRects)
    {
      requestedRects := requestedRects + [logical];
      ghost var before := requests.taken;
      var rect := requests.BeginRequest(logical);
      assert IssuedRects(requests.requested, requests.taken, |before|)
        == IssuedRects(old(requests.requested), before, |before|);
      if rect.Some? {
        assert IssuedRects(requests.requested, requests.taken, |requests.taken|)
            == IssuedRects(requests.requested, requests.taken, |before|) + [logical];
        queued := queued + [rect.value];
      }
    }

    /** The handlers of a reply request what they like. */
    method React(reaction: Reaction)
      requires requests.Valid() && requests.inFlight && requestedRects == requests.requested
      modifies this`requestedRects, requests
      ensures requests.Valid() && requests.inFlight && requests.taken == old(requests.taken)
      ensures requestedRects == requests.requested == old(requestedRects) + reaction
    {
      for i := 0 to |reaction|
        invariant requests.Valid() && requests.inFlight && requests.taken == old(requests.taken)
        invariant requestedRects == requests.requested == old(requestedRects) + reaction[..i]
      {
        requestedRects := requestedRects + [reaction[i]];
        var _ := requests.BeginRequest(reaction[i]);
      }
      assert reaction[..|reaction|] == reaction;
    }

    /** One reply: the rectangle is answered, the handlers request what they like, and the newest request
        is issued. */
    method Deliver(reaction: Reaction)
      requires Valid() && queued != []
      modifies this, requests
      ensures Valid() && requestedRects == old(requestedRects) + reaction
      ensures issuedRects == old(issuedRects) + [old(queued[0])]
      ensures requests.inFlight ==> requestedRects != [] && queued == [Last(requestedRects)]
    {
      hide IssuedRects, LatestWins, TakenOk;
      assert queued == [queued[0]];
      issuedRects := issuedRects + [queued[0]];
      queued := [];
      assert issuedRects == IssuedRects(requests.requested, requests.taken, |requests.taken|);
      React(reaction);
      IssuedStay(old(requests.requested), requests.requested, requests.taken);
      ghost var taken := requests.taken;
      var next := requests.EndRequest();
      if next.Some? {
        queued := [next.value];
        IssuedNewest(requests.requested, taken, requests.taken);
      }
    }
  }

  // ---------------------------------------------------------------- the wlroots source

  /** The rectangle a grab was issued for, and the part of it the frame that answered it shows. */
  datatype Outcome = Outcome(rect: Rect, shown: Option<Rect>)

  /** One buffer offer of the compositor. */
  datatype Offer = Offer(format: nat, width: nat, height: nat, stride: nat)

  datatype PendingFrame = PendingFrame(id: nat, logical: Rect, buffer: Option<Offer>, copied: bool)

  /** The first offer in a format this build reads. */
  function FirstUsable(usable: nat -> bool, offers: seq<Offer>): Option<Offer> {
    if offers == [] then None
    else if FirstUsable(usable, Front(offers)).Some? then FirstUsable(usable, Front(offers))
    else if usable(Last(offers).format) then Some(Last(offers)) else None
  }

  // ---------------------------------------------------------------- refused chains

  /** How many reactions from the first on request a grab. */
  function Grabbing(reactions: seq<Reaction>): (n: nat)
    ensures n <= |reactions| && (forall i :: 0 <= i < n ==> reactions[i] != [])
    ensures n < |reactions| ==> reactions[n] == []
  {
    if reactions == [] || reactions[0] == [] then 0 else Grabbing(reactions[1..]) + 1
  }

  /** How many more grabs a refusal issues, all refused: the remembered one, or one of its own handlers,
      and then one for every further handler in a row that requests a grab. */
  function FurtherRefusals(reactions: seq<Reaction>, remembered: bool): nat {
    if reactions == [] then if remembered then 1 else 0
    else if remembered || reactions[0] != [] then 1 + Grabbing(reactions[1..])
    else 0
  }

  /** The chain is one deep, as documented, exactly when the handlers of the second refusal, if any,
      request nothing; and it is one deeper for every handler exactly when all handlers, but for the first
      of a remembered grab, request one. */
  lemma ChainDepth(reactions: seq<Reaction>, remembered: bool)
    ensures FurtherRefusals(reactions, remembered) <= 1 <==>
      |reactions| <= 1 || reactions[1] == [] || (!remembered && reactions[0] == [])
    ensures reactions != [] ==> (FurtherRefusals(reactions, remembered) == |reactions| <==>
      (remembered || reactions[0] != []) && forall i :: 1 <= i < |reactions| ==> reactions[i] != [])
  {
  }

  /** The chain, one refusal at a time. */
  lemma OneMoreRefusal(reactions: seq<Reaction>, remembered: bool)
    ensures FurtherRefusals(reactions, remembered) ==
      if remembered || (reactions != [] && reactions[0] != [])
      then 1 + FurtherRefusals(if reactions == [] then [] else reactions[1..], false) else 0
  {
  }


  function Intersected(a: Span, b: Span): Span {
    var lo := Max(a.lo, b.lo);
    Span(lo, Min(a.Hi(), b.Hi()) - lo + 1)
  }

  function Clipped(rect: Rect, screen: Rect): Rect {
    Rect(Intersected(rect.x, screen.x), Intersected(rect.y, screen.y))
  }

  /** Two rectangles have a pixel in common. */
  ghost predicate Meet(a: Rect, b: Rect) {
    exists p :: a.Holds(p) && b.Holds(p)
  }

  /** shown holds exactly the pixels of both. */
  ghost predicate ShowsBoth(shown: Rect, a: Rect, b: Rect) {
    forall p :: shown.Holds(p) <==> a.Holds(p) && b.Holds(p)
  }

  lemma ClippedShowsBoth(rect: Rect, screen: Rect)
    ensures ShowsBoth(Clipped(rect, screen), rect, screen)
    ensures Clipped(rect, screen).IsEmpty() <==> !Meet(rect, screen)
    ensures Meet(rect, screen) ==> Shows(Clipped(rect, screen), rect)
  {
    var clipped := Clipped(rect, screen);
    forall p
      ensures clipped.Holds(p) <==> rect.Holds(p) && screen.Holds(p)
    {
    }
    if !clipped.IsEmpty() {
      assert clipped.Holds(Point(clipped.x.lo, clipped.y.lo));
    }
  }

  /** A frame shows pixels of the grab it answers, and no others. */
  predicate Shows(shown: Rect, rect: Rect) {
    !shown.IsEmpty() && shown.Within(rect)
  }

  /** Frames are numbered as they are created; copies lists the frames a copy was requested for. */
  ghost predicate CopiedOnce(frame: Option<PendingFrame>, created: nat, copies: seq<nat>) {
    && (forall i, j :: 0 <= i < j < |copies| ==> copies[i] < copies[j])
    && (forall i :: 0 <= i < |copies| ==> copies[i] < created)
    && (frame.Some? ==>
          && frame.value.id + 1 == created
          && (frame.value.copied <==> frame.value.id in copies)
          && (frame.value.copied ==> frame.value.buffer.Some?))
  }

  /** The outcomes are those of the first issued grabs, in order. */
  ghost predicate OutcomesOf(outcomes: seq<Outcome>, requested: seq<Rect>, taken: seq<nat>) {
    && |outcomes| <= |taken|
    && TakenOk(requested, taken)
    && forall i :: 0 <= i < |outcomes| ==>
         outcomes[i].rect == requested[taken[i]]
         && (outcomes[i].shown.Some? ==> Shows(outcomes[i].shown.value, outcomes[i].rect))
  }

  class WlrFrameSource {
    const requests: FrameSource
    const hasManager: bool
    const managerVersion: nat
    // Whether this build can turn a shared-memory format into an image.
    const usable: nat -> bool
    // The geometry of the output under a rectangle's centre, as the screens are now.
    var screenFor: Rect -> Option<Rect>
    var frame: Option<PendingFrame>
    var watchdog: bool

    var created: nat
    ghost var offers: seq<Offer>
    ghost var copies: seq<nat>
    ghost var outcomes: seq<Outcome>

    ghost predicate Core()
      reads this, requests
    {
      && requests.Valid()
      && CopiedOnce(frame, created, copies)
      && OutcomesOf(outcomes, requests.requested, requests.taken)
      && watchdog == frame.Some?
      && (frame.Some? ==> frame.value.buffer == FirstUsable(usable, offers))
    }

    /** Between events: a grab is in flight exactly while a frame is pending, and every grab issued
        before it has had one outcome. */
    ghost predicate Valid()
      reads this, requests
    {
      && Core()
      && requests.inFlight == frame.Some?
      && (frame.Some? ==> Shows(frame.value.logical, requests.Current()))
      && |outcomes| == |requests.taken| - if requests.inFlight then 1 else 0
    }

    /** A grab was just issued; nothing has been done for it. */
    ghost predicate Issuing()
      reads this, requests
    {
      Core() && requests.inFlight && frame.None? && |outcomes| == |requests.taken| - 1
    }

    /** The grab in flight has had its outcome. */
    ghost predicate Answered()
      reads this, requests
    {
      Core() && requests.inFlight && frame.None? && |outcomes| == |requests.taken|
    }

    /** A grab that can be made: a manager is bound, the grab's centre is on a screen, and they have a pixel in
        common. */
    ghost predicate Grabs(rect: Rect)
      reads this
    {
      hasManager && screenFor(rect).Some? && Meet(rect, screenFor(rect).value)
    }

    constructor (hasManager: bool, managerVersion: nat, usable: nat -> bool, screenFor: Rect -> Option<Rect>)
      ensures Valid() && requests.requested == [] && fresh(requests)
    {
      this.hasManager, this.managerVersion := hasManager, managerVersion;
      this.usable, this.screenFor := usable, screenFor;
      requests := new FrameSource();
      frame, watchdog, created, offers, copies, outcomes := None, false, 0, [], [], [];
    }

    method Grab(logical: Rect, reactions: seq<Reaction>)
      requires Valid()
      modifies this, requests
      ensures Valid()
      ensures old(requests.inFlight) ==>
        requests.requested == old(requests.requested) + [logical] && requests.taken == old(requests.taken)
      ensures old(requests.requested) + [logical] <= requests.requested && old(outcomes) <= outcomes
    {
      var rect := requests.BeginRequest(logical);
      if rect.Some? {
        Issue(rect.value, reactions);
      }
    }

    /** Emits frameReady or failed; the handlers' requests are remembered, the newest last. */
    method Emit(shown: Option<Rect>, reactions: seq<Reaction>) returns (rest: seq<Reaction>)
      requires Issuing() && (shown.Some? ==> Shows(shown.value, requests.Current()))
      modifies this`outcomes, requests
      ensures Answered()
      ensures outcomes == old(outcomes) + [Outcome(old(requests.Current()), shown)]
      ensures requests.taken == old(requests.taken) && old(requests.requested) <= requests.requested
      ensures rest == if reactions == [] then [] else reactions[1..]
      ensures requests.pending.Some? <==> old(requests.pending).Some? || (reactions != [] && reactions[0] != [])
    {
      outcomes := outcomes + [Outcome(requests.Current(), shown)];
      if reactions == [] {
        return [];
      }
      var reaction := reactions[0];
      for i := 0 to |reaction|
        invariant Answered() && requests.taken == old(requests.taken)
        invariant outcomes == old(outcomes) + [Outcome(old(requests.Current()), shown)]
        invariant old(requests.requested) <= requests.requested
        invariant i == 0 ==> requests.pending == old(requests.pending)
        invariant i > 0 ==> requests.pending.Some?
      {
        var _ := requests.BeginRequest(reaction[i]);
      }
      return reactions[1..];
    }

    /** issue(): a frame object and the watchdog when a manager is bound and the grab has pixels on its
        screen; the frame shows exactly those. Otherwise a refusal, which issues the remembered grab. Without
        a manager every grab is refused, and the chain is exactly FurtherRefusals() deep; with one it can
        only be shorter. */
    method Issue(logical: Rect, reactions: seq<Reaction>)
      requires Issuing() && logical == requests.Current()
      modifies this, requests
      ensures Valid()
      ensures old(requests.requested) <= requests.requested && old(outcomes) <= outcomes
      ensures old(Grabs(logical)) ==>
        && frame.Some? && frame.value.id == old(created) && frame.value.buffer.None? && !frame.value.copied
        && ShowsBoth(frame.value.logical, logical, old(screenFor)(logical).value)
        && created == old(created) + 1 && outcomes == old(outcomes) && requests.taken == old(requests.taken)
      ensures !old(Grabs(logical)) ==> old(outcomes) + [Outcome(logical, None)] <= outcomes
      ensures |requests.taken| <= |old(requests.taken)| + FurtherRefusals(reactions, old(requests.pending).Some?)
      ensures !hasManager ==>
        |requests.taken| == |old(requests.taken)| + FurtherRefusals(reactions, old(requests.pending).Some?)
      decreases |reactions|, if requests.pending.Some? then 1 else 0, 2
    {
      if !hasManager {
        Answer(None, reactions);
        return;
      }
      var screen := screenFor(logical);
      if screen.None? {
        Answer(None, reactions);
        return;
      }
      ClippedShowsBoth(logical, screen.value);
      var clipped := Clipped(logical, screen.value);
      if clipped.IsEmpty() {
        Answer(None, reactions);
        return;
      }
      frame, offers := Some(PendingFrame(created, clipped, None, false)), [];
      created := created + 1;
      watchdog := true;
    }

    /** The signal, then the remembered grab. */
    method Answer(shown: Option<Rect>, reactions: seq<Reaction>)
      requires Issuing() && (shown.Some? ==> Shows(shown.value, requests.Current()))
      modifies this, requests
      ensures Valid()
      ensures old(requests.requested) <= requests.requested
      ensures old(outcomes) + [Outcome(old(requests.Current()), shown)] <= outcomes
      ensures |requests.taken| <= |old(requests.taken)| + FurtherRefusals(reactions, old(requests.pending).Some?)
      ensures !hasManager ==>
        |requests.taken| == |old(requests.taken)| + FurtherRefusals(reactions, old(requests.pending).Some?)
      decreases |reactions|, if requests.pending.Some? then 1 else 0, 1
    {
      OneMoreRefusal(reactions, requests.pending.Some?);
      var rest := Emit(shown, reactions);
      IssueNext(rest);
    }

    method IssueNext(reactions: seq<Reaction>)
      requires Answered()
      modifies this, requests
      ensures Valid()
      ensures old(requests.requested) <= requests.requested && old(outcomes) <= outcomes
      ensures var further := if old(requests.pending).Some? then 1 + FurtherRefusals(reactions, false) else 0;
        && |requests.taken| <= |old(requests.taken)| + further
        && (!hasManager ==> |requests.taken| == |old(requests.taken)| + further)
      decreases |reactions|, if requests.pending.Some? then 1 else 0, 0
    {
      var next := requests.EndRequest();
      if next.Some? {
        Issue(next.value, reactions);
      }
    }

    /** A buffer offer: the first one in a format this build reads is taken. Before version 3 it is the
        whole offer, and the copy is requested at once. */
    method OnBuffer(offer: Offer, hasRoom: bool, reactions: seq<Reaction>)
      requires Valid()
      modifies this, requests
      ensures Valid() && old(requests.requested) <= requests.requested && old(outcomes) <= outcomes
      ensures var takes := old(frame).Some? && old(frame).value.buffer.None? && usable(offer.format);
        && (!takes ==> frame == old(frame) && outcomes == old(outcomes) && copies == old(copies))
        && (takes && managerVersion >= 3 ==>
              frame == Some(old(frame).value.(buffer := Some(offer)))
              && outcomes == old(outcomes) && copies == old(copies))
        && (takes && managerVersion < 3 && hasRoom ==>
              frame == Some(old(frame).value.(buffer := Some(offer), copied := true))
              && copies == old(copies) + [old(frame).value.id])
        && (takes && managerVersion < 3 && !hasRoom ==>
              old(outcomes) + [Outcome(old(requests.Current()), None)] <= outcomes)
    {
      if frame.None? {
        return;
      }
      offers := offers + [offer];
      assert Front(offers) == old(offers);
      if frame.value.buffer.Some? || !usable(offer.format) {
        return;
      }
      frame := Some(frame.value.(buffer := Some(offer)));
      if managerVersion < 3 {
        SendCopy(hasRoom, reactions);
      }
    }

    /** sendCopy(), which is also what the end of the offers does. */
    method SendCopy(hasRoom: bool, reactions: seq<Reaction>)
      requires Valid()
      modifies this, requests
      ensures Valid() && old(requests.requested) <= requests.requested && old(outcomes) <= outcomes
      ensures old(frame).Some? && !old(frame).value.copied && old(frame).value.buffer.Some? && hasRoom ==>
        frame == Some(old(frame).value.(copied := true)) && copies == old(copies) + [old(frame).value.id]
      ensures old(frame).Some? && !old(frame).value.copied && !(old(frame).value.buffer.Some? && hasRoom) ==>
        old(outcomes) + [Outcome(old(requests.Current()), None)] <= outcomes
      ensures old(frame).None? || old(frame).value.copied ==>
        frame == old(frame) && copies == old(copies) && outcomes == old(outcomes)
    {
      if frame.None? || frame.value.copied {
        return;
      }
      if frame.value.buffer.None? {
        AbortPending(reactions);
        return;
      }
      if !hasRoom {
        AbortPending(reactions);
        return;
      }
      CopyOf(frame.value, created, copies);
      copies := copies + [frame.value.id];
      frame := Some(frame.value.(copied := true));
    }

    /** ready: the frame is delivered. The compositor sends it for a live frame object only. */
    method FinishPending(reactions: seq<Reaction>)
      requires Valid() && frame.Some?
      modifies this, requests
      ensures Valid() && old(requests.requested) <= requests.requested
      ensures old(outcomes) + [Outcome(old(requests.Current()), Some(old(frame).value.logical))] <= outcomes
    {
      var logical := frame.value.logical;
      watchdog := false;
      frame := None;
      Answer(Some(logical), reactions);
    }

    method AbortPending(reactions: seq<Reaction>)
      requires Valid() && frame.Some?
      modifies this, requests
      ensures Valid() && old(requests.requested) <= requests.requested
      ensures old(outcomes) + [Outcome(old(requests.Current()), None)] <= outcomes
    {
      watchdog := false;
      frame := None;
      Answer(None, reactions);
    }

    /** The watchdog fires: the frame that was never answered is given up, and the source can grab
        again. */
    method OnRequestTimeout(reactions: seq<Reaction>)
      requires Valid() && watchdog
      modifies this, requests
      ensures Valid() && old(requests.requested) <= requests.requested
      ensures old(outcomes) + [Outcome(old(requests.Current()), None)] <= outcomes
    {
      if frame.None? {
        return;
      }
      AbortPending(reactions);
    }

    /** One event. What arrives for a frame object arrives while it lives, and the watchdog fires while
        it runs; anything else is not an event. */
    method Perform(event: CaptureEvent)
      requires Valid()
      modifies this, requests
      ensures Valid()
      ensures old(requests.requested) <= requests.requested && old(outcomes) <= outcomes
    {
      match event
      case GrabAsked(rect, reactions) => Grab(rect, reactions);
      case BufferOffered(offer, hasRoom, reactions) => OnBuffer(offer, hasRoom, reactions);
      case OffersDone(hasRoom, reactions) => SendCopy(hasRoom, reactions);
      case FrameReady(reactions) =>
        if frame.Some? {
          FinishPending(reactions);
        }
      case FrameFailed(reactions) =>
        if frame.Some? {
          AbortPending(reactions);
        }
      case TimerFired(reactions) =>
        if watchdog {
          OnRequestTimeout(reactions);
        }
      case ScreensChanged(screens) => screenFor := screens;
    }

    /** Any run: at most one grab in flight, timed by the watchdog while it is; the issued rectangles are
        requested ones in order and have one outcome each, but for the one in flight; an idle source has
        issued the newest request; no frame is copied twice, and each into the first usable buffer offered
        for it. */
    method Run(events: seq<CaptureEvent>)
      requires Valid()
      modifies this, requests
      ensures Valid()
      ensures watchdog == frame.Some? == requests.inFlight
      ensures |outcomes| == |requests.taken| - if requests.inFlight then 1 else 0
      ensures forall i :: 0 <= i < |outcomes| ==> outcomes[i].rect == requests.requested[requests.taken[i]]
      ensures !requests.inFlight && requests.requested != [] ==>
        requests.taken != [] && requests.Current() == Last(requests.requested) == Last(outcomes).rect
      ensures forall i, j :: 0 <= i < j < |copies| ==> copies[i] != copies[j]
      ensures frame.Some? ==> frame.value.buffer == FirstUsable(usable, offers)
    {
      for n := 0 to |events|
        invariant Valid()
      {
        Perform(events[n]);
      }
    }
  }

  datatype CaptureEvent =
    | GrabAsked(rect: Rect, reactions: seq<Reaction>)
    | BufferOffered(offer: Offer, hasRoom: bool, reactions: seq<Reaction>)
    | OffersDone(hasRoom: bool, reactions: seq<Reaction>)
    | FrameReady(reactions: seq<Reaction>)
    | FrameFailed(reactions: seq<Reaction>)
    | TimerFired(reactions: seq<Reaction>)
    | ScreensChanged(screens: Rect -> Option<Rect>)

  lemma CopyOf(frame: PendingFrame, created: nat, copies: seq<nat>)
    requires CopiedOnce(Some(frame), created, copies) && !frame.copied && frame.buffer.Some?
    ensures CopiedOnce(Some(frame.(copied := true)), created, copies + [frame.id])
  {
    forall i | 0 <= i < |copies|
      ensures copies[i] < frame.id
    {
      assert copies[i] in copies;
    }
  }
}
