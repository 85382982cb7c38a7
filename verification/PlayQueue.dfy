/** The renderer's play queue: the tracks of the current and of the next transport
    URI, the hand-over from one to the other, and the signals a renderer mirrors in
    its AVTransport state variables (AVTransport:1, sections 2.2 and 2.4).

    Every locked region of the source is one step. */
module PlayQueues {
  import opened Basics

  datatype Track = Track(uri: string, avTransportUri: string)

  datatype Signal = CurrentTransportUriChanged(uri: string) | NextTransportUriChanged(uri: string) | QueueChanged

  /** The two deques, and all signals fired so far. */
  datatype Queue = Queue(current: seq<Track>, next: seq<Track>, signals: seq<Signal>)

  const EMPTY: Queue := Queue([], [], [])

  /** What can happen to a queue.  `uris` are the tracks a transport URI stands for:
      the entries of a playlist, or the URI itself. */
  datatype Step =
    | SetCurrentUri(uri: string, uris: seq<string>)
    | SetNextUri(uri: string, uris: seq<string>)
    | DequeueNextTrack
    | Clear

  function TracksOf(avTransportUri: string, uris: seq<string>): seq<Track> {
    seq(|uris|, k requires 0 <= k < |uris| => Track(uris[k], avTransportUri))
  }

  /** The queue after a step. */
  function After(q: Queue, step: Step): Queue {
    match step
    case SetCurrentUri(uri, uris) =>
      Queue(TracksOf(uri, uris), q.next, q.signals + [CurrentTransportUriChanged(uri), QueueChanged])
    case SetNextUri(uri, uris) =>
      Queue(q.current, TracksOf(uri, uris), q.signals + [NextTransportUriChanged(uri), QueueChanged])
    case Clear => Queue([], [], q.signals + [QueueChanged])
    case DequeueNextTrack =>
      if q.current != [] then Queue(q.current[1..], q.next, q.signals + [QueueChanged])
      else if q.next != [] then
        Queue(q.next[1..], [], q.signals + [CurrentTransportUriChanged(q.next[0].avTransportUri),
                                            NextTransportUriChanged(""), QueueChanged])
      else q
  }

  /** The track that dequeuing hands out: the first in line. */
  function Front(q: Queue): Option<Track> {
    if q.current + q.next == [] then None else Some((q.current + q.next)[0])
  }

  function CurrentUri(q: Queue): string {
    if q.current == [] then "" else q.current[0].avTransportUri
  }

  function NextUri(q: Queue): string {
    if q.next == [] then "" else q.next[0].avTransportUri
  }

  // ----- The object -----

  class PlayQueue {
    var currentURITracks: seq<Track>
    var nextURITracks: seq<Track>
    var signals: seq<Signal>

    function State(): Queue
      reads this
    {
      Queue(currentURITracks, nextURITracks, signals)
    }

    constructor ()
      ensures State() == EMPTY
    {
      currentURITracks, nextURITracks, signals := [], [], [];
    }

    method Items(avTransportUri: string, uris: seq<string>) returns (items: seq<Track>)
      ensures items == TracksOf(avTransportUri, uris)
    {
      items := [];
      for k := 0 to |uris|
        invariant items == TracksOf(avTransportUri, uris)[..k]
      {
        items := items + [Track(uris[k], avTransportUri)];
      }
    }

    method SetCurrentUri(avTransportUri: string, uris: seq<string>)
      modifies this
      ensures State() == After(old(State()), Step.SetCurrentUri(avTransportUri, uris))
    {
      currentURITracks := Items(avTransportUri, uris);
      signals := signals + [CurrentTransportUriChanged(avTransportUri)];
      signals := signals + [QueueChanged];
    }

    method SetNextUri(avTransportUri: string, uris: seq<string>)
      modifies this
      ensures State() == After(old(State()), Step.SetNextUri(avTransportUri, uris))
    {
      nextURITracks := Items(avTransportUri, uris);
      signals := signals + [NextTransportUriChanged(avTransportUri)];
      signals := signals + [QueueChanged];
    }

    method GetCurrentUri() returns (uri: string)
      ensures uri == CurrentUri(State())
    {
      uri := if currentURITracks == [] then "" else currentURITracks[0].avTransportUri;
    }

    method GetNextUri() returns (uri: string)
      ensures uri == NextUri(State())
    {
      uri := if nextURITracks == [] then "" else nextURITracks[0].avTransportUri;
    }

    method Clear()
      modifies this
      ensures State() == After(old(State()), Step.Clear)
    {
      currentURITracks := [];
      nextURITracks := [];
      signals := signals + [QueueChanged];
    }

    method DequeueNextTrack() returns (track: Option<Track>)
      modifies this
      ensures State() == After(old(State()), Step.DequeueNextTrack)
      ensures track == Front(old(State()))
    {
      var avTransportUriChange := false;
      track := None;
      if currentURITracks == [] && nextURITracks == [] {
        return;
      } else if currentURITracks == [] && nextURITracks != [] {
        currentURITracks, nextURITracks := nextURITracks, currentURITracks;
        avTransportUriChange := true;
      }
      if currentURITracks != [] {
        track := Some(currentURITracks[0]);
        currentURITracks := currentURITracks[1..];
      }
      if avTransportUriChange {
        signals := signals + [CurrentTransportUriChanged(track.value.avTransportUri)];
        signals := signals + [NextTransportUriChanged("")];
      }
      signals := signals + [QueueChanged];
    }

    method GetNumberOfTracks() returns (n: nat)
      ensures n == |State().current|
    {
      n := |currentURITracks|;
    }
  }

  // ----- Runs -----

  ghost function Run(steps: seq<Step>): Queue {
    if steps == [] then EMPTY else After(Run(steps[..|steps| - 1]), steps[|steps| - 1])
  }

  /** The last URI announced as current; what a renderer shows as AVTransportURI. */
  ghost function AnnouncedCurrent(signals: seq<Signal>): string {
    if signals == [] then ""
    else if signals[|signals| - 1].CurrentTransportUriChanged? then signals[|signals| - 1].uri
    else AnnouncedCurrent(signals[..|signals| - 1])
  }

  /** The last URI announced as next; what a renderer shows as NextAVTransportURI. */
  ghost function AnnouncedNext(signals: seq<Signal>): string {
    if signals == [] then ""
    else if signals[|signals| - 1].NextTransportUriChanged? then signals[|signals| - 1].uri
    else AnnouncedNext(signals[..|signals| - 1])
  }

  lemma AnnouncedSnoc(signals: seq<Signal>, s: Signal)
    ensures AnnouncedCurrent(signals + [s]) == if s.CurrentTransportUriChanged? then s.uri
            else AnnouncedCurrent(signals)
    ensures AnnouncedNext(signals + [s]) == if s.NextTransportUriChanged? then s.uri else AnnouncedNext(signals)
  {
    assert (signals + [s])[..|signals|] == signals;
  }

  lemma AnnouncedAfter(q: Queue, step: Step)
    ensures AnnouncedCurrent(After(q, step).signals) ==
            if step.SetCurrentUri? then step.uri
            else if step.DequeueNextTrack? && q.current == [] && q.next != [] then q.next[0].avTransportUri
            else AnnouncedCurrent(q.signals)
    ensures AnnouncedNext(After(q, step).signals) ==
            if step.SetNextUri? then step.uri
            else if step.DequeueNextTrack? && q.current == [] && q.next != [] then ""
            else AnnouncedNext(q.signals)
  {
    var new' := After(q, step).signals[|q.signals|..];
    hide AnnouncedCurrent, AnnouncedNext;
    if |new'| > 0 {
      AnnouncedSnoc(q.signals, new'[0]);
      if |new'| > 1 {
        AnnouncedSnoc(q.signals + [new'[0]], new'[1]);
        assert q.signals + [new'[0]] + [new'[1]] == q.signals + [new'[0], new'[1]];
        if |new'| > 2 {
          AnnouncedSnoc(q.signals + [new'[0], new'[1]], new'[2]);
          assert q.signals + [new'[0], new'[1]] + [new'[2]] == q.signals + [new'[0], new'[1], new'[2]];
        }
      }
    }
  }

  /** All tracks of a deque belong to one transport URI. */
  ghost predicate AllFrom(tracks: seq<Track>, uri: string) {
    forall k :: 0 <= k < |tracks| ==> tracks[k].avTransportUri == uri
  }

  /** In every run, both deques hold tracks of the URI last announced for them. */
  lemma {:induction false} DequesMatchAnnouncements(steps: seq<Step>)
    ensures var q := Run(steps);
            AllFrom(q.current, AnnouncedCurrent(q.signals)) && AllFrom(q.next, AnnouncedNext(q.signals))
  {
    if steps != [] {
      var before := steps[..|steps| - 1];
      DequesMatchAnnouncements(before);
      AnnouncedAfter(Run(before), steps[|steps| - 1]);
    }
  }

  /** In every run, a track handed out belongs to the URI that is announced as
      current once it is handed out. */
  lemma HandedOutTrackIsAnnounced(steps: seq<Step>)
    requires Front(Run(steps)).Some?
    ensures var after := Run(steps + [DequeueNextTrack]);
            Front(Run(steps)).value.avTransportUri == AnnouncedCurrent(after.signals)
  {
    assert (steps + [DequeueNextTrack])[..|steps|] == steps;
    DequesMatchAnnouncements(steps);
    AnnouncedAfter(Run(steps), DequeueNextTrack);
  }

  /** The current URI is the announced one as long as tracks of it are waiting; while
      its last track plays it reads as empty. */
  lemma CurrentUriExactly(steps: seq<Step>)
    ensures var q := Run(steps);
            CurrentUri(q) == AnnouncedCurrent(q.signals) <==> q.current != [] || AnnouncedCurrent(q.signals) == ""
  {
    DequesMatchAnnouncements(steps);
  }

  // ----- Mirroring the current URI -----

  ghost predicate MirrorsCurrent(q: Queue) {
    CurrentUri(q) == AnnouncedCurrent(q.signals)
  }

  /** A step after which no track of the announced current URI waits any more: the last
      one was handed out, or there was none, or the queue was cleared. */
  predicate UsesUpCurrent(q: Queue, step: Step) {
    match step
    case SetCurrentUri(uri, uris) => uris == [] && uri != ""
    case SetNextUri(_, _) => false
    case Clear => CurrentUri(q) != ""
    case DequeueNextTrack =>
      if q.current != [] then |q.current| == 1 && CurrentUri(q) != "" else |q.next| == 1 && NextUri(q) != ""
  }

  /** The current URI always reads as announced exactly in runs that never use it up; it
      reads as empty while its last track plays. */
  lemma CurrentUriMirroredExactly(steps: seq<Step>)
    ensures (forall n :: 0 <= n <= |steps| ==> MirrorsCurrent(Run(steps[..n]))) <==>
            (forall n :: 0 <= n < |steps| ==> !UsesUpCurrent(Run(steps[..n]), steps[n]))
  {
    if forall n :: 0 <= n <= |steps| ==> MirrorsCurrent(Run(steps[..n])) {
      forall n | 0 <= n < |steps|
        ensures !UsesUpCurrent(Run(steps[..n]), steps[n])
      {
        CurrentStep(steps, n);
        assert MirrorsCurrent(Run(steps[..n])) && MirrorsCurrent(Run(steps[..n + 1]));
      }
    }
    if forall n :: 0 <= n < |steps| ==> !UsesUpCurrent(Run(steps[..n]), steps[n]) {
      forall n | 0 <= n <= |steps|
        ensures MirrorsCurrent(Run(steps[..n]))
      {
        CurrentUpTo(steps, n);
      }
    }
  }

  lemma CurrentStep(steps: seq<Step>, n: nat)
    requires n < |steps| && MirrorsCurrent(Run(steps[..n]))
    ensures MirrorsCurrent(Run(steps[..n + 1])) <==> !UsesUpCurrent(Run(steps[..n]), steps[n])
  {
    assert steps[..n + 1][..n] == steps[..n];
    AnnouncedAfter(Run(steps[..n]), steps[n]);
    DequesMatchAnnouncements(steps[..n]);
  }

  lemma {:induction false} CurrentUpTo(steps: seq<Step>, n: nat)
    requires n <= |steps| && forall k :: 0 <= k < |steps| ==> !UsesUpCurrent(Run(steps[..k]), steps[k])
    ensures MirrorsCurrent(Run(steps[..n]))
  {
    if n > 0 {
      CurrentUpTo(steps, n - 1);
      CurrentStep(steps, n - 1);
    }
  }

  /** One track, played: its URI is announced and reads as empty.  An empty playlist: its
      URI is announced as next and reads as empty. */
  lemma PlayingLastTrackReadsEmpty()
    ensures var q := Run([SetCurrentUri("a", ["a"]), DequeueNextTrack]);
            CurrentUri(q) == "" && AnnouncedCurrent(q.signals) == "a"
    ensures var q := Run([SetNextUri("b.m3u", [])]);
            NextUri(q) == "" && AnnouncedNext(q.signals) == "b.m3u"
  {
    var set', steps := [SetCurrentUri("a", ["a"])], [SetCurrentUri("a", ["a"]), DequeueNextTrack];
    assert set'[..0] == [] && steps[..1] == set' && Run([]) == EMPTY;
    AnnouncedAfter(EMPTY, set'[0]);
    AnnouncedAfter(Run(set'), DequeueNextTrack);
    var next := [SetNextUri("b.m3u", [])];
    assert next[..0] == [];
    AnnouncedAfter(EMPTY, next[0]);
  }

  // ----- Mirroring the next URI -----

  /** A step that takes the next tracks away without announcing it: a playlist
      without entries, or clearing the queue. */
  predicate DropsNextSilently(q: Queue, step: Step) {
    match step
    case SetNextUri(uri, uris) => uris == [] && uri != ""
    case Clear => NextUri(q) != ""
    case _ => false
  }

  ghost predicate MirrorsNext(q: Queue) {
    NextUri(q) == AnnouncedNext(q.signals)
  }

  /** Whoever replays the next-URI signals of a run always knows the next URI exactly
      when no step of the run drops it silently. */
  lemma NextUriMirroredExactly(steps: seq<Step>)
    ensures (forall n :: 0 <= n <= |steps| ==> MirrorsNext(Run(steps[..n]))) <==>
            (forall n :: 0 <= n < |steps| ==> !DropsNextSilently(Run(steps[..n]), steps[n]))
  {
    if forall n :: 0 <= n <= |steps| ==> MirrorsNext(Run(steps[..n])) {
      forall n | 0 <= n < |steps|
        ensures !DropsNextSilently(Run(steps[..n]), steps[n])
      {
        MirrorStep(steps, n);
        assert MirrorsNext(Run(steps[..n])) && MirrorsNext(Run(steps[..n + 1]));
      }
    }
    if forall n :: 0 <= n < |steps| ==> !DropsNextSilently(Run(steps[..n]), steps[n]) {
      forall n | 0 <= n <= |steps|
        ensures MirrorsNext(Run(steps[..n]))
      {
        MirrorUpTo(steps, n);
      }
    }
  }

  lemma MirrorStep(steps: seq<Step>, n: nat)
    requires n < |steps| && MirrorsNext(Run(steps[..n]))
    ensures MirrorsNext(Run(steps[..n + 1])) <==> !DropsNextSilently(Run(steps[..n]), steps[n])
  {
    assert steps[..n + 1][..n] == steps[..n];
    AnnouncedAfter(Run(steps[..n]), steps[n]);
  }

  lemma {:induction false} MirrorUpTo(steps: seq<Step>, n: nat)
    requires n <= |steps| && forall k :: 0 <= k < |steps| ==> !DropsNextSilently(Run(steps[..k]), steps[k])
    ensures MirrorsNext(Run(steps[..n]))
  {
    if n > 0 {
      MirrorUpTo(steps, n - 1);
      MirrorStep(steps, n - 1);
    }
  }

  // ----- Draining -----

  /** The queue after `n` tracks have been asked for. */
  ghost function Drained(q: Queue, n: nat): Queue
    decreases n
  {
    if n == 0 then q else Drained(After(q, DequeueNextTrack), n - 1)
  }

  /** What was handed out meanwhile. */
  ghost function HandedOut(q: Queue, n: nat): seq<Option<Track>>
    decreases n
  {
    if n == 0 then [] else [Front(q)] + HandedOut(After(q, DequeueNextTrack), n - 1)
  }

  ghost function Somes(tracks: seq<Track>): seq<Option<Track>> {
    if tracks == [] then [] else [Some(tracks[0])] + Somes(tracks[1..])
  }

  /** The signals of a complete drain: one change of the queue for each track, and
      in between a single hand-over, if there is a next URI. */
  ghost function DrainSignals(current: nat, next: seq<Track>): seq<Signal>
    decreases current + |next|
  {
    if current > 0 then [QueueChanged] + DrainSignals(current - 1, next)
    else if next == [] then []
    else [CurrentTransportUriChanged(next[0].avTransportUri), NextTransportUriChanged(""), QueueChanged]
         + DrainSignals(|next| - 1, [])
  }

  /** Asking for as many tracks as are waiting hands out the current tracks and then
      the next ones, each once and in order; after that there is nothing. */
  lemma {:induction false} DrainsInOrder(q: Queue)
    ensures var n := |q.current| + |q.next|;
            && HandedOut(q, n) == Somes(q.current + q.next)
            && Drained(q, n) == Queue([], [], q.signals + DrainSignals(|q.current|, q.next))
    ensures var d := Drained(q, |q.current| + |q.next|); Front(d) == None && After(d, DequeueNextTrack) == d
    decreases |q.current| + |q.next|
  {
    if q.current + q.next != [] {
      var after := After(q, DequeueNextTrack);
      DrainsInOrder(after);
      assert (q.current + q.next)[1..] == after.current + after.next;
      DrainSignalsStep(q);
    }
  }

  lemma {:induction false} SomesAt(tracks: seq<Track>, k: nat)
    requires k < |tracks|
    ensures |Somes(tracks)| == |tracks| && Somes(tracks)[k] == Some(tracks[k])
  {
    if k > 0 {
      SomesAt(tracks[1..], k - 1);
    } else if |tracks| > 1 {
      SomesAt(tracks[1..], 0);
    }
  }

  /** The tracks of a new current URI are handed out first, as they were listed. */
  lemma PlaysCurrentAsListed(q: Queue, uri: string, uris: seq<string>, k: nat)
    requires k < |uris|
    ensures var handed := HandedOut(After(q, SetCurrentUri(uri, uris)), |uris| + |q.next|);
            |handed| == |uris| + |q.next| && handed[k] == Some(Track(uris[k], uri))
  {
    var after := After(q, SetCurrentUri(uri, uris));
    DrainsInOrder(after);
    SomesAt(after.current + after.next, k);
    hide HandedOut, Drained, Somes, DrainSignals;
  }

  /** The tracks set for the current and then those set for the next URI are handed out as
      they were listed, each with the URI it was set with. */
  lemma PlaysAsListed(q: Queue, uri: string, uris: seq<string>, nextUri: string, nextUris: seq<string>, k: nat)
    requires k < |uris| + |nextUris|
    ensures var after := After(After(q, SetCurrentUri(uri, uris)), SetNextUri(nextUri, nextUris));
            var handed := HandedOut(after, |uris| + |nextUris|);
            && |handed| == |uris| + |nextUris|
            && handed[k] ==
               Some(if k < |uris| then Track(uris[k], uri) else Track(nextUris[k - |uris|], nextUri))
  {
    var after := After(After(q, SetCurrentUri(uri, uris)), SetNextUri(nextUri, nextUris));
    DrainsInOrder(after);
    SomesAt(after.current + after.next, k);
    hide HandedOut, Drained, Somes, DrainSignals;
  }

  lemma DrainSignalsStep(q: Queue)
    requires q.current + q.next != []
    ensures var after := After(q, DequeueNextTrack);
            after.signals + DrainSignals(|after.current|, after.next) == q.signals + DrainSignals(|q.current|, q.next)
  {
  }

  // ----- Hand-overs -----

  /** The number of steps of a run that move the next tracks to the front. */
  ghost function HandOvers(steps: seq<Step>): nat {
    if steps == [] then 0
    else
      var before := steps[..|steps| - 1];
      var q := Run(before);
      HandOvers(before) + if steps[|steps| - 1].DequeueNextTrack? && q.current == [] && q.next != [] then 1 else 0
  }

  /** The number of steps of a run that set a next URI with tracks. */
  ghost function NextUrisSet(steps: seq<Step>): nat {
    if steps == [] then 0
    else
      var last := steps[|steps| - 1];
      NextUrisSet(steps[..|steps| - 1]) + if last.SetNextUri? && last.uris != [] then 1 else 0
  }

  /** In every run, a next URI is handed over at most once. */
  lemma {:induction false} HandedOverAtMostOnce(steps: seq<Step>)
    ensures HandOvers(steps) + (if Run(steps).next != [] then 1 else 0) <= NextUrisSet(steps)
  {
    if steps != [] {
      HandedOverAtMostOnce(steps[..|steps| - 1]);
    }
  }
}
