/**
 * The main loop (`main`) as a state machine. Each pass of the source's
 * `while True` loop is one step; what the collaborators returned during that
 * pass (the listener count, whether each capture succeeded, each recognition
 * result, whether each cover download succeeded) is the step's input, and its
 * output is the new state and the effects it performed, in order. `Serve`
 * runs the loop on the raw replies, through the listener probe and the
 * recognizer client.
 */
module Orchestrator {
  import opened Wrappers
  import opened Recognition
  import opened Publishing
  import Listeners
  import Metadata

  /** Seconds to wait between checks while nobody listens. */
  const IdleSleep := 15

  /** Seconds to let the stream buffer settle after the first listener arrives. */
  const SettleSleep := 5

  /** Seconds between regular recognition attempts. */
  const PollInterval := 30

  /** The placeholder published when the last listener leaves. */
  const Paused := Publish("Paused", "", "")

  /** The placeholder published when the first listener arrives. */
  const Detecting := Publish("Detecting...", "", "")

  /** The placeholder published when recognition finds no match. */
  const UnknownPlaceholder := Publish(Unknown, "", "")

  /** The loop's variables `last_track` and `prev_listeners`. */
  datatype State = State(lastTrack: Option<Track>, prevListeners: int)

  const Initial := State(None, 0)

  /** Outcomes of one capture-and-recognise pass. `result` and `coverFetched`
      matter only when the capture and a download happen. */
  datatype Attempt = Attempt(captured: bool, result: Recognized, coverFetched: bool)

  /** Outcomes of one loop pass: the listener count, the immediate attempt
      (used only on an activation) and the regular attempt. */
  datatype Iteration = Iteration(listeners: int, immediate: Attempt, regular: Attempt)

  /** The same outcomes before the probe and the recognizer client read them:
      the stats reply and the provider's replies. */
  datatype RawAttempt = RawAttempt(captured: bool, reply: ShazamReply, coverFetched: bool)
  datatype RawIteration = RawIteration(stats: Listeners.StatsReply, immediate: RawAttempt, regular: RawAttempt)

  function ObserveAttempt(a: RawAttempt): Attempt {
    Attempt(a.captured, Extract(a.reply), a.coverFetched)
  }

  function Observe(r: RawIteration): Iteration {
    Iteration(Listeners.ListenerCount(r.stats), ObserveAttempt(r.immediate), ObserveAttempt(r.regular))
  }

  function ObserveAll(raws: seq<RawIteration>): seq<Iteration> {
    seq(|raws|, i requires 0 <= i < |raws| => Observe(raws[i]))
  }

  datatype PollResult = PollResult(lastTrack: Option<Track>, effects: seq<Effect>)

  /** One capture-and-recognise pass with its deduplication and no-match rules. */
  function PollOutcome(lastTrack: Option<Track>, a: Attempt): (r: PollResult)
    ensures |r.effects| >= 1 && r.effects[0] == Capture
    ensures r.lastTrack == lastTrack ||
            (a.captured && r.lastTrack == if a.result.Match? then Some(a.result.track) else None)
  {
    if !a.captured then PollResult(lastTrack, [Capture])
    else
      match a.result
      case NoMatch => PollResult(None, [Capture, ClearCover, UnknownPlaceholder])
      case Match(t) =>
        if Some(t) != lastTrack then PollResult(Some(t), [Capture] + HandleTrack(t, a.coverFetched))
        else PollResult(lastTrack, [Capture])
  }

  /** A pass always captures once, first. A failed capture changes nothing.
      A new track (one that differs field by field from the last) becomes the
      last track and is handled once; the same track again publishes nothing;
      no match forgets the last track, clears the cover and publishes
      "Unknown". So a pass publishes exactly when it captured and found
      either no match or a new track, and then exactly once. */
  lemma PollRules(lastTrack: Option<Track>, a: Attempt)
    ensures var r := PollOutcome(lastTrack, a);
      && |r.effects| >= 1 && r.effects[0] == Capture
      && Count(r.effects, CaptureKind) == 1
      && (!a.captured ==> r == PollResult(lastTrack, [Capture]))
      && (a.captured && a.result.NoMatch? ==>
            r == PollResult(None, [Capture, ClearCover, UnknownPlaceholder]))
      && (a.captured && a.result.Match? && Some(a.result.track) == lastTrack ==>
            r == PollResult(lastTrack, [Capture]))
      && (a.captured && a.result.Match? && Some(a.result.track) != lastTrack ==>
            r.lastTrack == Some(a.result.track) &&
            r.effects[1..] == HandleTrack(a.result.track, a.coverFetched))
      && Count(r.effects, PublishKind) ==
         (if a.captured && (a.result.NoMatch? || Some(a.result.track) != lastTrack) then 1 else 0)
  {
    var r := PollOutcome(lastTrack, a);
    CountSingle(Capture, CaptureKind);
    CountSingle(Capture, PublishKind);
    if a.captured {
      match a.result
      case NoMatch =>
        var tail := [ClearCover, UnknownPlaceholder];
        assert r.effects == [Capture] + tail;
        assert tail == [ClearCover] + [UnknownPlaceholder];
        CountSingle(ClearCover, CaptureKind);
        CountSingle(ClearCover, PublishKind);
        CountSingle(UnknownPlaceholder, CaptureKind);
        CountSingle(UnknownPlaceholder, PublishKind);
        CountAppend([ClearCover], [UnknownPlaceholder], CaptureKind);
        CountAppend([ClearCover], [UnknownPlaceholder], PublishKind);
        CountAppend([Capture], tail, CaptureKind);
        CountAppend([Capture], tail, PublishKind);
      case Match(t) =>
        if Some(t) != lastTrack {
          HandleTrackPublishesOnce(t, a.coverFetched);
          CountAppend([Capture], HandleTrack(t, a.coverFetched), CaptureKind);
          CountAppend([Capture], HandleTrack(t, a.coverFetched), PublishKind);
          assert r.effects[1..] == HandleTrack(t, a.coverFetched);
        }
    }
  }

  datatype StepResult = StepResult(state: State, effects: seq<Effect>)

  /** The out-of-cadence pass, run only on an activation. */
  function ImmediatePoll(s: State, it: Iteration): PollResult {
    if s.prevListeners == 0 then PollOutcome(s.lastTrack, it.immediate) else PollResult(s.lastTrack, [])
  }

  /** One pass of the main loop. */
  function StepOutcome(s: State, it: Iteration): (r: StepResult)
    ensures r.state.prevListeners == if it.listeners < 1 then 0 else it.listeners
    ensures it.listeners < 1 ==> r.state.lastTrack == s.lastTrack
    ensures |r.effects| >= 1
    ensures r.effects[|r.effects| - 1] == Sleep(if it.listeners < 1 then IdleSleep else PollInterval)
  {
    var listeners := it.listeners;
    if listeners < 1 then IdleOutcome(s) else ActiveOutcome(s, it, listeners)
  }

  /** A pass that found no listeners. */
  function IdleOutcome(s: State): (r: StepResult)
    ensures r.state == State(s.lastTrack, 0)
    ensures |r.effects| >= 1 && r.effects[|r.effects| - 1] == Sleep(IdleSleep)
    ensures Paused in r.effects <==> s.prevListeners >= 1
  {
    StepResult(State(s.lastTrack, 0), (if s.prevListeners >= 1 then [Paused] else []) + [Sleep(IdleSleep)])
  }

  /** A pass that found `listeners` (at least one) listeners. */
  function ActiveOutcome(s: State, it: Iteration, listeners: int): (r: StepResult)
    ensures r.state.prevListeners == listeners
    ensures |r.effects| >= 2 && r.effects[|r.effects| - 1] == Sleep(PollInterval)
    ensures r.effects[0] == Detecting <==> s.prevListeners == 0
  {
    var first := ImmediatePoll(s, it);
    var opening := if s.prevListeners == 0 then [Detecting, Sleep(SettleSleep)] + first.effects else [];
    var regular := PollOutcome(first.lastTrack, it.regular);
    StepResult(State(regular.lastTrack, listeners), opening + regular.effects + [Sleep(PollInterval)])
  }

  /** The state and the whole trace after the given passes, from `s`. */
  function RunFrom(s: State, its: seq<Iteration>): (r: StepResult)
    ensures its == [] ==> r == StepResult(s, [])
    ensures |r.effects| >= |its|
    ensures its != [] ==> r.effects[|r.effects| - 1].Sleep?
    ensures its != [] ==>
              r.state.prevListeners == if its[|its| - 1].listeners < 1 then 0 else its[|its| - 1].listeners
    decreases |its|
  {
    if its == [] then StepResult(s, [])
    else
      var before := RunFrom(s, its[..|its| - 1]);
      var step := StepOutcome(before.state, its[|its| - 1]);
      StepResult(step.state, before.effects + step.effects)
  }

  /** The loop from process start. */
  function Run(its: seq<Iteration>): (r: StepResult)
    ensures its == [] ==> r == StepResult(Initial, [])
    ensures |r.effects| >= |its|
    ensures its != [] ==> r.effects[|r.effects| - 1].Sleep?
  {
    RunFrom(Initial, its)
  }

  predicate Idle(it: Iteration) {
    it.listeners < 1
  }

  /** A pass with no listeners: "Paused" is published exactly when there were
      listeners before; the last track is kept, the listener memory drops to
      0, nothing is captured and the pass ends with the idle wait. */
  lemma IdleStep(s: State, it: Iteration)
    requires Idle(it)
    ensures var r := StepOutcome(s, it);
      && r.state == State(s.lastTrack, 0)
      && r.effects[|r.effects| - 1] == Sleep(IdleSleep)
      && Count(r.effects, PublishKind) == (if s.prevListeners >= 1 then 1 else 0)
      && (s.prevListeners >= 1 ==> r.effects[0] == Paused)
      && Count(r.effects, CaptureKind) == 0
  {
    assert StepOutcome(s, it) == IdleOutcome(s);
    IdleOutcomeCounts(s);
  }

  lemma IdleOutcomeCounts(s: State)
    ensures var r := IdleOutcome(s);
      && r.effects[|r.effects| - 1] == Sleep(IdleSleep)
      && Count(r.effects, PublishKind) == (if s.prevListeners >= 1 then 1 else 0)
      && (s.prevListeners >= 1 ==> r.effects[0] == Paused)
      && Count(r.effects, CaptureKind) == 0
  {
    var r := IdleOutcome(s);
    var head := if s.prevListeners >= 1 then [Paused] else [];
    assert r.effects == head + [Sleep(IdleSleep)];
    CountSingle(Sleep(IdleSleep), PublishKind);
    CountSingle(Sleep(IdleSleep), CaptureKind);
    CountSingle(Paused, PublishKind);
    CountSingle(Paused, CaptureKind);
    CountAppend(head, [Sleep(IdleSleep)], PublishKind);
    CountAppend(head, [Sleep(IdleSleep)], CaptureKind);
  }

  /** Counting over the effects of a pass with listeners, in terms of its
      opening and its regular poll. */
  lemma ActiveTraceCounts(opening: seq<Effect>, regular: seq<Effect>, k: Kind)
    ensures Count(opening + regular + [Sleep(PollInterval)], k) ==
            Count(opening, k) + Count(regular, k) + (if k == SleepKind then 1 else 0)
  {
    CountAppend(opening, regular, k);
    CountAppend(opening + regular, [Sleep(PollInterval)], k);
    CountSingle(Sleep(PollInterval), k);
  }

  /** The shape of an activation's trace, from the shape of its two polls. */
  lemma ActivationTrace(first: seq<Effect>, regular: seq<Effect>)
    requires |first| >= 1 && first[0] == Capture
    requires Count(first, CaptureKind) == 1 && Count(regular, CaptureKind) == 1
    ensures var effects := [Detecting, Sleep(SettleSleep)] + first + regular + [Sleep(PollInterval)];
      && |effects| >= 4
      && effects[0] == Detecting && effects[1] == Sleep(SettleSleep) && effects[2] == Capture
      && effects[|effects| - 1] == Sleep(PollInterval)
      && Count(effects, CaptureKind) == 2
  {
    var opening := [Detecting, Sleep(SettleSleep)] + first;
    CountAppend([Detecting, Sleep(SettleSleep)], first, CaptureKind);
    assert [Detecting, Sleep(SettleSleep)] == [Detecting] + [Sleep(SettleSleep)];
    CountAppend([Detecting], [Sleep(SettleSleep)], CaptureKind);
    CountSingle(Detecting, CaptureKind);
    CountSingle(Sleep(SettleSleep), CaptureKind);
    ActiveTraceCounts(opening, regular, CaptureKind);
  }

  /** The first pass with listeners after none: "Detecting..." is published,
      then the settle wait, and only then the first capture; the immediate
      pass is followed by the regular one, so two captures happen. */
  lemma ActivationStep(s: State, it: Iteration)
    requires s.prevListeners == 0 && !Idle(it)
    ensures var r := StepOutcome(s, it);
      && |r.effects| >= 4
      && r.effects ==
         [Detecting, Sleep(SettleSleep)] + PollOutcome(s.lastTrack, it.immediate).effects
         + PollOutcome(PollOutcome(s.lastTrack, it.immediate).lastTrack, it.regular).effects
         + [Sleep(PollInterval)]
      && r.effects[0] == Detecting && r.effects[1] == Sleep(SettleSleep) && r.effects[2] == Capture
      && r.effects[|r.effects| - 1] == Sleep(PollInterval)
      && Count(r.effects, CaptureKind) == 2
      && r.state.prevListeners == it.listeners
      && r.state.lastTrack == PollOutcome(PollOutcome(s.lastTrack, it.immediate).lastTrack, it.regular).lastTrack
  {
    var first := PollOutcome(s.lastTrack, it.immediate);
    var regular := PollOutcome(first.lastTrack, it.regular);
    assert |first.effects| >= 1 && first.effects[0] == Capture && Count(first.effects, CaptureKind) == 1 by {
      PollRules(s.lastTrack, it.immediate);
    }
    assert Count(regular.effects, CaptureKind) == 1 by {
      PollRules(first.lastTrack, it.regular);
    }
    ActivationTrace(first.effects, regular.effects);
    assert StepOutcome(s, it) ==
           StepResult(State(regular.lastTrack, it.listeners),
                      [Detecting, Sleep(SettleSleep)] + first.effects + regular.effects + [Sleep(PollInterval)]);
  }

  /** A pass with listeners before and now: one regular pass, then the poll
      wait; the listener memory becomes the new count. */
  lemma SteadyStep(s: State, it: Iteration)
    requires s.prevListeners >= 1 && !Idle(it)
    ensures var r := StepOutcome(s, it);
      && r.effects == PollOutcome(s.lastTrack, it.regular).effects + [Sleep(PollInterval)]
      && r.effects[0] == Capture
      && Count(r.effects, CaptureKind) == 1
      && r.state == State(PollOutcome(s.lastTrack, it.regular).lastTrack, it.listeners)
  {
    var regular := PollOutcome(s.lastTrack, it.regular);
    assert StepOutcome(s, it) ==
           StepResult(State(regular.lastTrack, it.listeners),
                      [] + regular.effects + [Sleep(PollInterval)]);
    assert [] + regular.effects == regular.effects;
    assert |regular.effects| >= 1 && regular.effects[0] == Capture && Count(regular.effects, CaptureKind) == 1 by {
      PollRules(s.lastTrack, it.regular);
    }
    ActiveTraceCounts([], regular.effects, CaptureKind);
  }

  /** Over consecutive passes without listeners, "Paused" is published at
      most once: in the first of them, and only if there were listeners. */
  lemma {:induction false} IdleRunPausesAtMostOnce(s: State, its: seq<Iteration>)
    requires forall i :: 0 <= i < |its| ==> Idle(its[i])
    ensures Count(RunFrom(s, its).effects, PublishKind) == (if its != [] && s.prevListeners >= 1 then 1 else 0)
    ensures Count(RunFrom(s, its).effects, CaptureKind) == 0
    ensures RunFrom(s, its).state.lastTrack == s.lastTrack
    ensures its != [] ==> RunFrom(s, its).state.prevListeners == 0
    decreases |its|
  {
    if its != [] {
      var init := its[..|its| - 1];
      assert forall i :: 0 <= i < |init| ==> init[i] == its[i];
      IdleRunPausesAtMostOnce(s, init);
      var before := RunFrom(s, init);
      var step := IdleOutcome(before.state);
      assert RunFrom(s, its) == StepResult(step.state, before.effects + step.effects) by {
        assert Idle(its[|its| - 1]);
        assert StepOutcome(before.state, its[|its| - 1]) == step;
      }
      assert before.state.prevListeners >= 1 <==> init == [] && s.prevListeners >= 1;
      IdleOutcomeCounts(before.state);
      CountAppend(before.effects, step.effects, PublishKind);
      CountAppend(before.effects, step.effects, CaptureKind);
    }
  }

  /** After some passes from process start, the listener memory is 0 when the
      last pass found no listeners and that pass's count otherwise. */
  lemma ListenerMemory(its: seq<Iteration>, i: nat)
    requires i <= |its|
    ensures var prev := Run(its[..i]).state.prevListeners;
      && (i == 0 || Idle(its[i - 1]) ==> prev == 0)
      && (i > 0 && !Idle(its[i - 1]) ==> prev == its[i - 1].listeners >= 1)
  {
    if i > 0 {
      assert its[..i][..i - 1] == its[..i - 1];
    }
  }

  /** "Paused" is published only on an active-to-idle edge: in a pass
      without listeners exactly when the previous pass had some. */
  lemma PausedOnlyOnActiveToIdleEdge(its: seq<Iteration>, i: nat)
    requires i < |its| && Idle(its[i])
    ensures var r := StepOutcome(Run(its[..i]).state, its[i]);
      Count(r.effects, PublishKind) == (if i > 0 && !Idle(its[i - 1]) then 1 else 0)
  {
    ListenerMemory(its, i);
    IdleStep(Run(its[..i]).state, its[i]);
  }

  /** "Detecting..." opens a pass with listeners exactly on an idle-to-active
      edge: the first pass of the process or one after a pass without
      listeners. */
  lemma DetectingOnlyOnIdleToActiveEdge(its: seq<Iteration>, i: nat)
    requires i < |its| && !Idle(its[i])
    ensures var r := StepOutcome(Run(its[..i]).state, its[i]);
      r.effects[0] == Detecting <==> i == 0 || Idle(its[i - 1])
  {
    ListenerMemory(its, i);
    var s := Run(its[..i]).state;
    if s.prevListeners == 0 {
      ActivationStep(s, its[i]);
    } else {
      SteadyStep(s, its[i]);
    }
  }

  /** A pass with listeners leaves the listener memory at the new count and
      the last track as its regular poll left it. */
  lemma ActiveStepState(s: State, it: Iteration)
    requires !Idle(it)
    ensures StepOutcome(s, it).state ==
            State(PollOutcome(ImmediatePoll(s, it).lastTrack, it.regular).lastTrack, it.listeners)
  {
  }

  /** Recognising the same track in two consecutive passes with listeners
      publishes nothing the second time. */
  lemma SameTrackNotRepublished(s: State, it1: Iteration, it2: Iteration, t: Track)
    requires !Idle(it1) && !Idle(it2)
    requires it1.regular.captured && it1.regular.result == Match(t)
    requires it2.regular.captured && it2.regular.result == Match(t)
    ensures var s1 := StepOutcome(s, it1).state;
      && s1.lastTrack == Some(t)
      && Count(StepOutcome(s1, it2).effects, PublishKind) == 0
      && StepOutcome(s1, it2).state.lastTrack == Some(t)
  {
    var s1 := StepOutcome(s, it1).state;
    assert s1.lastTrack == Some(t) && s1.prevListeners >= 1 by {
      ActiveStepState(s, it1);
      PollRules(ImmediatePoll(s, it1).lastTrack, it1.regular);
    }
    var regular := PollOutcome(s1.lastTrack, it2.regular);
    assert Count(regular.effects, PublishKind) == 0 && regular.lastTrack == Some(t) by {
      PollRules(s1.lastTrack, it2.regular);
    }
    SteadyStep(s1, it2);
    ActiveTraceCounts([], regular.effects, PublishKind);
    assert [] + regular.effects == regular.effects;
  }

  /** A pass that finds no match forgets the last track, so a following match
      is published even when it is the track known before the gap. */
  lemma NoMatchForgetsLastTrack(s: State, it1: Iteration, it2: Iteration, t: Track)
    requires !Idle(it1) && !Idle(it2)
    requires it1.regular.captured && it1.regular.result == NoMatch
    requires it2.regular.captured && it2.regular.result == Match(t)
    ensures var s1 := StepOutcome(s, it1).state;
      && s1.lastTrack == None
      && Count(StepOutcome(s1, it2).effects, PublishKind) == 1
      && StepOutcome(s1, it2).state.lastTrack == Some(t)
  {
    var s1 := StepOutcome(s, it1).state;
    assert s1.lastTrack == None && s1.prevListeners >= 1 by {
      ActiveStepState(s, it1);
      PollRules(ImmediatePoll(s, it1).lastTrack, it1.regular);
    }
    var regular := PollOutcome(s1.lastTrack, it2.regular);
    assert Count(regular.effects, PublishKind) == 1 && regular.lastTrack == Some(t) by {
      PollRules(s1.lastTrack, it2.regular);
    }
    SteadyStep(s1, it2);
    ActiveTraceCounts([], regular.effects, PublishKind);
    assert [] + regular.effects == regular.effects;
  }

  /** The placeholders name no cover: each sends only its word as the song
      and no `url` parameter. */
  lemma PlaceholdersCarryNoCover()
    ensures Metadata.Lookup(RequestOf(Paused), "song") == Some("Paused")
    ensures Metadata.Lookup(RequestOf(Detecting), "song") == Some("Detecting...")
    ensures Metadata.Lookup(RequestOf(UnknownPlaceholder), "song") == Some(Unknown)
    ensures Metadata.Lookup(RequestOf(Paused), "url") == None
    ensures Metadata.Lookup(RequestOf(Detecting), "url") == None
    ensures Metadata.Lookup(RequestOf(UnknownPlaceholder), "url") == None
  {
    Metadata.UpdateParamsContent("Paused", "", "");
    Metadata.UpdateParamsContent("Detecting...", "", "");
    Metadata.UpdateParamsContent(Unknown, "", "");
  }

  /** A worked pass: with one listener already present and no track known,
      "Echoes" by Pink Floyd from the album "Meddle" is recognised and its
      cover downloads; the cover is fetched, then "Pink Floyd - Echoes" is
      published with the public cover URL. */
  lemma EchoesExample(n: nat)
    requires n >= 1
    ensures var reply := Answer(Some(TrackObject(
              Some("Echoes"), Some("Pink Floyd"),
              [Section([MetaEntry(Some("Album"), Some("Meddle"))])],
              Images(Some("http://x/cover.jpg"), None))));
      var raw := RawIteration(Listeners.Document(Some(Listeners.Stats(Some(Listeners.Single(Listeners.Object(Some(n))))))),
                              RawAttempt(false, ProviderError, false), RawAttempt(true, reply, true));
      var r := StepOutcome(State(None, n), Observe(raw));
      && r.state.lastTrack == Some(Track("Echoes", "Pink Floyd", "Meddle", "http://x/cover.jpg"))
      && r.effects == [Capture, Download("http://x/cover.jpg"),
                       Publish("Pink Floyd", "Echoes", CoverPublicUrl), Sleep(PollInterval)]
      && Metadata.Lookup(RequestOf(r.effects[2]), "song") == Some("Pink Floyd - Echoes")
      && Metadata.Lookup(RequestOf(r.effects[2]), "url") == Some(CoverPublicUrl)
  {
    EchoesRecognized();
    var t := Track("Echoes", "Pink Floyd", "Meddle", "http://x/cover.jpg");
    assert HandleTrack(t, true) == [Download(t.cover), Publish("Pink Floyd", "Echoes", CoverPublicUrl)];
    Metadata.UpdateParamsContent("Pink Floyd", "Echoes", CoverPublicUrl);
    assert Metadata.Song("Pink Floyd", "Echoes") == "Pink Floyd - Echoes";
  }

  /** The Shazam reply of the worked pass extracts to the expected track. */
  lemma EchoesRecognized()
    ensures Extract(Answer(Some(TrackObject(
              Some("Echoes"), Some("Pink Floyd"),
              [Section([MetaEntry(Some("Album"), Some("Meddle"))])],
              Images(Some("http://x/cover.jpg"), None))))) ==
            Match(Track("Echoes", "Pink Floyd", "Meddle", "http://x/cover.jpg"))
  {
    var sections := [Section([MetaEntry(Some("Album"), Some("Meddle"))])];
    assert Lower("Album") == "album";
    assert sections[..0] == [];
    assert AlbumOf(sections) == "Meddle";
  }

  /** One capture-and-recognise pass as the source runs it. */
  method Poll(lastTrack: Option<Track>, a: RawAttempt) returns (next: Option<Track>, effects: seq<Effect>)
    ensures PollResult(next, effects) == PollOutcome(lastTrack, ObserveAttempt(a))
  {
    next, effects := lastTrack, [Capture];
    if a.captured {
      var track := Recognize(a.reply);
      if track.Match? && Some(track.track) != lastTrack {
        next := Some(track.track);
        effects := effects + HandleTrack(track.track, a.coverFetched);
      } else if track.NoMatch? {
        next := None;
        effects := effects + [ClearCover, UnknownPlaceholder];
      }
    }
  }

  /** The body of the loop as the source runs it: one pass over the
      listener check, the activation block and the regular poll. */
  method Pass(lastTrack: Option<Track>, prevListeners: int, raw: RawIteration)
    returns (nextTrack: Option<Track>, nextListeners: int, effects: seq<Effect>)
    ensures StepResult(State(nextTrack, nextListeners), effects) ==
            StepOutcome(State(lastTrack, prevListeners), Observe(raw))
  {
    ghost var s := State(lastTrack, prevListeners);
    ghost var it := Observe(raw);
    nextTrack, nextListeners, effects := lastTrack, prevListeners, [];
    var listeners := Listeners.ListenerCount(raw.stats);
    assert listeners == it.listeners;
    if listeners < 1 {
      if prevListeners >= 1 {
        effects := effects + [Paused];
      }
      nextListeners := 0;
      effects := effects + [Sleep(IdleSleep)];
      assert StepOutcome(s, it) == IdleOutcome(s);
      return;
    }
    ghost var first := ImmediatePoll(s, it);
    if prevListeners == 0 && listeners >= 1 {
      effects := effects + [Detecting, Sleep(SettleSleep)];
      var polled;
      nextTrack, polled := Poll(nextTrack, raw.immediate);
      effects := effects + polled;
      assert effects == [Detecting, Sleep(SettleSleep)] + first.effects;
    } else {
      assert effects == [];
    }
    assert nextTrack == first.lastTrack;
    nextListeners := listeners;
    var polled;
    nextTrack, polled := Poll(nextTrack, raw.regular);
    effects := effects + polled + [Sleep(PollInterval)];
    assert StepOutcome(s, it) == ActiveOutcome(s, it, listeners);
  }

  /** The main loop over the passes the process gets to run. */
  method Serve(raws: seq<RawIteration>) returns (lastTrack: Option<Track>, prevListeners: int, trace: seq<Effect>)
    ensures Run(ObserveAll(raws)) == StepResult(State(lastTrack, prevListeners), trace)
  {
    lastTrack, prevListeners, trace := None, 0, [];
    ghost var its := ObserveAll(raws);
    var i := 0;
    while i < |raws|
      invariant 0 <= i <= |raws|
      invariant RunFrom(Initial, its[..i]) == StepResult(State(lastTrack, prevListeners), trace)
    {
      ghost var before := State(lastTrack, prevListeners);
      assert its[i] == Observe(raws[i]);
      ghost var step := StepOutcome(before, its[i]);
      assert its[..i + 1][..i] == its[..i];
      assert RunFrom(Initial, its[..i + 1]) == StepResult(step.state, trace + step.effects);
      var effects;
      lastTrack, prevListeners, effects := Pass(lastTrack, prevListeners, raws[i]);
      trace := trace + effects;
      i := i + 1;
    }
    assert its[..i] == its;
  }
}
