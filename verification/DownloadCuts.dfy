/**
 * A download cut into frames in different ways, served by the scripted
 * device: which cuts are recorded alike, whatever else the stream holds.
 */
module DownloadCuts {
  import opened Common
  import opened TcpFraming
  import opened ScriptedDevice
  import ScriptedTrace

  // ----- Serving any messages

  /** Where serving stands after some messages: it waits for the next one, or it has stopped. */
  datatype Stage = Waits(s: Recorder) | Stops(s: Recorder, status: Status)

  function Staged(sc: Scenario, s: Recorder, payloads: seq<seq<Byte>>): Stage
    decreases |payloads|
  {
    if s.finished then Stops(s, Complete)
    else if payloads == [] then Waits(s)
    else
      var h := Handled(sc, s, payloads[0]);
      if h.1.Rejected? then Stops(h.0, Broken)
      else if ReconnectsAfter(sc, payloads[0]) then Stops(Clear(h.0), if h.0.finished then Complete else Reconnecting)
      else Staged(sc, Clear(h.0), payloads[1..])
  }

  function Resumed(sc: Scenario, stage: Stage, rest: seq<Byte>): (Recorder, Status) {
    match stage
    case Waits(s) => Served(sc, s, rest)
    case Stops(s, status) => (s, status)
  }

  /** Messages the receiver takes as frames. */
  predicate Fit(payloads: seq<seq<Byte>>) {
    forall i :: 0 <= i < |payloads| ==> |payloads[i]| <= MAX_FRAME_BYTES
  }

  /** Serving the frames of any messages is handling them up to the first end, refusal or expected reconnect. */
  lemma {:induction false} ServedIsStaged(sc: Scenario, s: Recorder, payloads: seq<seq<Byte>>, rest: seq<Byte>)
    requires Fit(payloads)
    ensures Served(sc, s, Frames(payloads) + rest) == Resumed(sc, Staged(sc, s, payloads), rest)
    decreases |payloads|
  {
    if payloads == [] {
      assert Frames(payloads) + rest == rest;
    } else {
      var tail := Frames(payloads[1..]) + rest;
      ScriptedTrace.FramesStep(payloads, rest);
      FrameIsReceived(payloads[0], tail);
      ServedIsStaged(sc, Clear(Handled(sc, s, payloads[0]).0), payloads[1..], rest);
    }
  }

  // ----- How serving a cut ends

  /** The frames belong to a download under way and do not exceed it. */
  predicate Downloading(s: Recorder, frames: seq<seq<Byte>>) {
    && !s.finished && s.expectedDataSize.Some? && frames != []
    && |s.downloadBuffer| + |Concat(frames)| <= s.expectedDataSize.value
  }

  predicate Completes(s: Recorder, bytes: seq<Byte>)
    requires s.expectedDataSize.Some?
  {
    |s.downloadBuffer| + |bytes| == s.expectedDataSize.value
  }

  predicate IsTerminal(sc: Scenario) {
    sc.terminalCommand == "download"
  }

  /** The first frame whose bytes spell a command after which the client connects anew, or their number. */
  function Spelled(sc: Scenario, frames: seq<seq<Byte>>): (i: nat)
    ensures i <= |frames| && (i < |frames| ==> ReconnectsAfter(sc, frames[i]))
    ensures forall k :: 0 <= k < i ==> !ReconnectsAfter(sc, frames[k])
  {
    if frames == [] || ReconnectsAfter(sc, frames[0]) then 0 else 1 + Spelled(sc, frames[1..])
  }

  /** With the download, by a reconnect that `received` bytes precede, not at all, or by an empty frame too many. */
  datatype Ending = WithDownload | Reconnects(received: seq<Byte>) | GoesOn | Fails

  function EndingOf(sc: Scenario, s: Recorder, frames: seq<seq<Byte>>): Ending
    requires Downloading(s, frames)
  {
    var i := Spelled(sc, frames);
    if i == |frames| then
      if Completes(s, Concat(frames)) && IsTerminal(sc) then WithDownload
      else if SplitsWell(s, frames) then GoesOn
      else Fails
    else if Completes(s, Concat(frames[..i + 1])) && IsTerminal(sc) then WithDownload
    else if i > 0 && Completes(s, Concat(frames[..i])) then Fails
    else Reconnects(Concat(frames[..i + 1]))
  }

  /** The recorder after some bytes of the download. */
  function Received(sc: Scenario, s: Recorder, bytes: seq<Byte>): Recorder {
    Clear(Handled(sc, s, bytes).0)
  }

  /** What each ending leaves of a download of these bytes. */
  function StageOf(sc: Scenario, s: Recorder, ending: Ending, bytes: seq<Byte>): Stage {
    match ending
    case WithDownload => Stops(Received(sc, s, bytes), Complete)
    case Reconnects(received) => Stops(Received(sc, s, received), Reconnecting)
    case GoesOn => Waits(Received(sc, s, bytes))
    case Fails => Stops(Received(sc, Received(sc, s, bytes), []), Complete)
  }

  // ----- A cut is served up to its ending

  lemma {:induction false} ConcatPrefix(frames: seq<seq<Byte>>, i: nat)
    requires i <= |frames|
    ensures Concat(frames[..i]) <= Concat(frames)
    decreases i
  {
    if i > 0 {
      assert frames[..i][1..] == frames[1..][..i - 1];
      ConcatPrefix(frames[1..], i - 1);
    }
  }

  lemma PrefixStep(frames: seq<seq<Byte>>, i: nat)
    requires 0 < i <= |frames|
    ensures Concat(frames[..i]) == frames[0] + Concat(frames[1..][..i - 1])
  {
    assert frames[..i][0] == frames[0] && frames[..i][1..] == frames[1..][..i - 1];
  }

  lemma {:induction false} AllEmpty(frames: seq<seq<Byte>>, i: nat)
    requires Concat(frames) == [] && i < |frames|
    ensures frames[i] == []
  {
    if i > 0 { AllEmpty(frames[1..], i - 1); }
  }

  lemma PartIsKept(sc: Scenario, s: Recorder, part: seq<Byte>)
    requires !s.finished && s.expectedDataSize.Some? && |s.downloadBuffer| + |part| < s.expectedDataSize.value
    ensures Handled(sc, s, part) == (s.(downloadBuffer := s.downloadBuffer + part), Answer(None))
  {
  }

  lemma WholeIsTaken(sc: Scenario, s: Recorder, bytes: seq<Byte>)
    requires !s.finished && s.expectedDataSize.Some? && Completes(s, bytes)
    ensures Handled(sc, s, bytes).1.Answer? && Handled(sc, s, bytes).0.expectedDataSize.None?
    ensures Received(sc, s, bytes).finished <==> IsTerminal(sc)
  {
  }

  /** The first frame completes the download: what comes behind it is empty. */
  lemma FirstCompletes(sc: Scenario, s: Recorder, frames: seq<seq<Byte>>)
    requires Downloading(s, frames) && Completes(s, frames[0])
    ensures Concat(frames) == frames[0]
    ensures var i := Spelled(sc, frames);
            EndingOf(sc, s, frames) == if IsTerminal(sc) then WithDownload
                                       else if i == 0 then Reconnects(frames[0])
                                       else if |frames| == 1 then GoesOn
                                       else Fails
  {
    var i := Spelled(sc, frames);
    assert Concat(frames[1..]) == [];
    assert Concat(frames) == frames[0];
    if i < |frames| {
      PrefixStep(frames, i + 1);
      ConcatPrefix(frames[1..], i);
      if i > 0 {
        PrefixStep(frames, i);
        ConcatPrefix(frames[1..], i - 1);
      }
    } else if |frames| > 1 {
      AllEmpty(frames[1..], |frames| - 2);
    }
  }

  lemma ServedToCompletion(sc: Scenario, s: Recorder, frames: seq<seq<Byte>>)
    requires Downloading(s, frames) && Completes(s, frames[0])
    ensures Staged(sc, s, frames) == StageOf(sc, s, EndingOf(sc, s, frames), Concat(frames))
  {
    FirstCompletes(sc, s, frames);
    WholeIsTaken(sc, s, frames[0]);
    var s' := Received(sc, s, frames[0]);
    var rest := frames[1..];
    if rest == [] {
      assert Staged(sc, s', rest) == if s'.finished then Stops(s', Complete) else Waits(s');
    } else {
      AllEmpty(rest, 0);
      EmptyCommandFails(sc, s');
      var failed := Received(sc, s', []);
      assert Staged(sc, failed, rest[1..]) == Stops(failed, Complete);
    }
  }

  lemma EndingGoesOn(sc: Scenario, s: Recorder, frames: seq<seq<Byte>>, s': Recorder)
    requires Downloading(s, frames) && |frames| > 1 && !Completes(s, frames[0]) && !ReconnectsAfter(sc, frames[0])
    requires s' == Clear(s.(downloadBuffer := s.downloadBuffer + frames[0]))
    ensures Downloading(s', frames[1..])
    ensures var ending := EndingOf(sc, s', frames[1..]);
            EndingOf(sc, s, frames) == if ending.Reconnects? then Reconnects(frames[0] + ending.received) else ending
  {
    var i, rest := Spelled(sc, frames), frames[1..];
    assert Concat(frames) == frames[0] + Concat(rest);
    if i < |frames| {
      PrefixStep(frames, i + 1);
      PrefixStep(frames, i);
    } else {
      assert rest[|rest| - 1] == frames[|frames| - 1];
      assert |rest| == 1 ==> Concat(rest) == rest[0];
    }
  }

  lemma ReceivedJoins(sc: Scenario, s: Recorder, first: seq<Byte>, more: seq<Byte>, s': Recorder)
    requires !s.finished && s.expectedDataSize.Some? && s' == Clear(s.(downloadBuffer := s.downloadBuffer + first))
    requires |s.downloadBuffer| + |first| + |more| <= s.expectedDataSize.value
    ensures Received(sc, s', more) == Received(sc, s, first + more)
  {
    assert s.downloadBuffer + first + more == s.downloadBuffer + (first + more);
  }

  /** Every cut of a download is served exactly up to its ending. */
  lemma {:induction false} CutIsServed(sc: Scenario, s: Recorder, frames: seq<seq<Byte>>)
    requires Downloading(s, frames)
    ensures Staged(sc, s, frames) == StageOf(sc, s, EndingOf(sc, s, frames), Concat(frames))
    decreases |frames|
  {
    var first, rest := frames[0], frames[1..];
    assert Concat(frames) == first + Concat(rest);
    if Completes(s, first) {
      ServedToCompletion(sc, s, frames);
    } else {
      PartIsKept(sc, s, first);
      var s' := Clear(s.(downloadBuffer := s.downloadBuffer + first));
      if ReconnectsAfter(sc, first) {
        PrefixStep(frames, 1);
        assert Concat(frames[..1]) == first;
      } else if rest == [] {
        assert Concat(frames) == first;
        assert Staged(sc, s', rest) == Waits(s');
      } else {
        EndingGoesOn(sc, s, frames, s');
        CutIsServed(sc, s', rest);
        ReceivedJoins(sc, s, first, Concat(rest), s');
        var ending := EndingOf(sc, s', rest);
        if ending.Reconnects? {
          ConcatPrefix(rest, Spelled(sc, rest) + 1);
          ReceivedJoins(sc, s, first, ending.received, s');
        }
      }
    }
  }

  // ----- Which cuts are alike

  /** The endings a download of these bytes can have. */
  ghost predicate Possible(sc: Scenario, s: Recorder, ending: Ending, bytes: seq<Byte>)
    requires s.expectedDataSize.Some?
  {
    match ending
    case WithDownload => Completes(s, bytes) && IsTerminal(sc)
    case Reconnects(received) => received <= bytes && !(Completes(s, received) && IsTerminal(sc))
    case GoesOn => !(Completes(s, bytes) && IsTerminal(sc))
    case Fails => Completes(s, bytes) && !IsTerminal(sc)
  }

  lemma EndingIsPossible(sc: Scenario, s: Recorder, frames: seq<seq<Byte>>)
    requires Downloading(s, frames)
    ensures Possible(sc, s, EndingOf(sc, s, frames), Concat(frames))
  {
    var i := Spelled(sc, frames);
    if i < |frames| {
      ConcatPrefix(frames, i + 1);
      ConcatPrefix(frames[..i + 1], i);
      assert frames[..i + 1][..i] == frames[..i];
    }
  }

  lemma NotFinished(sc: Scenario, s: Recorder, bytes: seq<Byte>)
    requires !s.finished && s.expectedDataSize.Some? && !(Completes(s, bytes) && IsTerminal(sc))
    ensures !Received(sc, s, bytes).finished
  {
  }

  /** Different parts of one download leave different recorders. */
  lemma ReceivedTells(sc: Scenario, s: Recorder, bytes: seq<Byte>, a: seq<Byte>, b: seq<Byte>)
    requires !s.finished && s.expectedDataSize.Some? && |s.downloadBuffer| + |bytes| <= s.expectedDataSize.value
    requires a <= bytes && b <= bytes && Received(sc, s, a) == Received(sc, s, b)
    ensures a == b
  {
    if |s.downloadBuffer| + |a| < s.expectedDataSize.value {
      PartIsKept(sc, s, a);
      if |s.downloadBuffer| + |b| < s.expectedDataSize.value {
        PartIsKept(sc, s, b);
        assert |s.downloadBuffer + a| == |s.downloadBuffer + b|;
      } else {
        WholeIsTaken(sc, s, b);
        assert false;
      }
    } else {
      WholeIsTaken(sc, s, a);
      if |s.downloadBuffer| + |b| < s.expectedDataSize.value {
        PartIsKept(sc, s, b);
        assert false;
      }
    }
  }

  /** At the end of the stream each ending shows. */
  lemma EndingShows(sc: Scenario, s: Recorder, e: Ending, f: Ending, bytes: seq<Byte>)
    requires !s.finished && s.expectedDataSize.Some? && |s.downloadBuffer| + |bytes| <= s.expectedDataSize.value
    requires Possible(sc, s, e, bytes) && Possible(sc, s, f, bytes)
    requires Resumed(sc, StageOf(sc, s, e, bytes), []) == Resumed(sc, StageOf(sc, s, f, bytes), [])
    ensures e == f
  {
    if e.GoesOn? || f.GoesOn? {
      NotFinished(sc, s, bytes);
    } else if e.Reconnects? && f.Reconnects? {
      ReceivedTells(sc, s, bytes, e.received, f.received);
    }
  }

  /** The stream of a cut and what follows it. */
  lemma CutInStream(sc: Scenario, s: Recorder, frames: seq<seq<Byte>>, rest: seq<Byte>)
    requires Downloading(s, frames) && Fit(frames)
    ensures Served(sc, s, Frames(frames) + rest)
         == Resumed(sc, StageOf(sc, s, EndingOf(sc, s, frames), Concat(frames)), rest)
  {
    CutIsServed(sc, s, frames);
    ServedIsStaged(sc, s, frames, rest);
  }

  /** Two streams are recorded alike whatever follows them. */
  ghost predicate RecordedAlike(sc: Scenario, s: Recorder, stream: seq<Byte>, stream': seq<Byte>) {
    forall rest :: Served(sc, s, stream + rest) == Served(sc, s, stream' + rest)
  }

  /** Two cuts of one download are recorded alike exactly when they have the same ending. */
  lemma CutsAlikeExactly(sc: Scenario, s: Recorder, frames: seq<seq<Byte>>, frames': seq<seq<Byte>>)
    requires Downloading(s, frames) && Downloading(s, frames') && Concat(frames) == Concat(frames')
    requires Fit(frames) && Fit(frames')
    ensures RecordedAlike(sc, s, Frames(frames), Frames(frames')) <==> EndingOf(sc, s, frames) == EndingOf(sc, s, frames')
  {
    var stream, stream', e, f := Frames(frames), Frames(frames'), EndingOf(sc, s, frames), EndingOf(sc, s, frames');
    if e == f {
      forall rest ensures Served(sc, s, stream + rest) == Served(sc, s, stream' + rest) {
        CutInStream(sc, s, frames, rest);
        CutInStream(sc, s, frames', rest);
      }
    } else if RecordedAlike(sc, s, stream, stream') {
      AlikeCutsEndAlike(sc, s, frames, frames');
    }
  }

  lemma AlikeCutsEndAlike(sc: Scenario, s: Recorder, frames: seq<seq<Byte>>, frames': seq<seq<Byte>>)
    requires Downloading(s, frames) && Downloading(s, frames') && Concat(frames) == Concat(frames')
    requires Fit(frames) && Fit(frames') && RecordedAlike(sc, s, Frames(frames), Frames(frames'))
    ensures EndingOf(sc, s, frames) == EndingOf(sc, s, frames')
  {
    var none: seq<Byte> := [];
    CutInStream(sc, s, frames, none);
    CutInStream(sc, s, frames', none);
    assert Served(sc, s, Frames(frames) + none) == Served(sc, s, Frames(frames') + none);
    EndingIsPossible(sc, s, frames);
    EndingIsPossible(sc, s, frames');
    EndingShows(sc, s, EndingOf(sc, s, frames), EndingOf(sc, s, frames'), Concat(frames));
  }

  /** No frame spells a reconnect command, and no empty frame follows the last byte. */
  predicate GoodCut(sc: Scenario, s: Recorder, frames: seq<seq<Byte>>)
    requires Downloading(s, frames)
  {
    SplitsWell(s, frames) && forall i :: 0 <= i < |frames| ==> !ReconnectsAfter(sc, frames[i])
  }

  /** Good cuts are all alike, however large the download is. */
  lemma GoodCutsAlike(sc: Scenario, s: Recorder, frames: seq<seq<Byte>>, frames': seq<seq<Byte>>)
    requires Downloading(s, frames) && Downloading(s, frames') && Concat(frames) == Concat(frames')
    requires Fit(frames) && Fit(frames') && GoodCut(sc, s, frames) && GoodCut(sc, s, frames')
    ensures RecordedAlike(sc, s, Frames(frames), Frames(frames'))
  {
    CutsAlikeExactly(sc, s, frames, frames');
  }

  // ----- Against the download in one frame

  /** The condition under which a cut is recorded like the whole, in terms of the frames alone. */
  predicate LikeWhole(sc: Scenario, s: Recorder, frames: seq<seq<Byte>>)
    requires Downloading(s, frames)
  {
    var i, whole := Spelled(sc, frames), Concat(frames);
    if |whole| > MAX_FRAME_BYTES then false
    else if Completes(s, whole) && IsTerminal(sc) then i == |frames| || Completes(s, Concat(frames[..i + 1]))
    else if i == |frames| then SplitsWell(s, frames) && !ReconnectsAfter(sc, whole)
    else
      && (i == 0 || !Completes(s, Concat(frames[..i])))
      && Concat(frames[..i + 1]) == whole && ReconnectsAfter(sc, whole)
  }

  lemma WholeEnding(sc: Scenario, s: Recorder, bytes: seq<Byte>)
    requires Downloading(s, [bytes])
    ensures EndingOf(sc, s, [bytes])
         == if Completes(s, bytes) && IsTerminal(sc) then WithDownload
            else if ReconnectsAfter(sc, bytes) then Reconnects(bytes)
            else GoesOn
  {
    assert Concat([bytes]) == bytes && [bytes][..1] == [bytes];
  }

  /** A frame above the limit of the receiver breaks the connection. */
  lemma TooLargeWhole(sc: Scenario, s: Recorder, frames: seq<seq<Byte>>)
    requires Downloading(s, frames) && Fit(frames) && MAX_FRAME_BYTES < |Concat(frames)| <= U64_MAX
    ensures !RecordedAlike(sc, s, Frames(frames), Frame(Concat(frames)))
  {
    var none: seq<Byte> := [];
    FrameIsReceived(Concat(frames), none);
    CutInStream(sc, s, frames, none);
    EndingIsPossible(sc, s, frames);
    var ending := EndingOf(sc, s, frames);
    if ending.GoesOn? {
      NotFinished(sc, s, Concat(frames));
      TakesSomething(sc, s, Concat(frames));
    }
    assert Served(sc, s, Frame(Concat(frames)) + none) == (s, Broken);
    assert Served(sc, s, Frames(frames) + none) != (s, Broken);
  }

  lemma TakesSomething(sc: Scenario, s: Recorder, bytes: seq<Byte>)
    requires !s.finished && s.expectedDataSize.Some? && bytes != []
    requires |s.downloadBuffer| + |bytes| <= s.expectedDataSize.value
    ensures Received(sc, s, bytes) != s
  {
    if Completes(s, bytes) {
      WholeIsTaken(sc, s, bytes);
    } else {
      PartIsKept(sc, s, bytes);
      assert |s.downloadBuffer + bytes| > |s.downloadBuffer|;
    }
  }

  lemma EndsLikeWhole(sc: Scenario, s: Recorder, frames: seq<seq<Byte>>, whole: seq<Byte>)
    requires Downloading(s, frames) && Downloading(s, [whole]) && whole == Concat(frames) && |whole| <= MAX_FRAME_BYTES
    ensures LikeWhole(sc, s, frames) <==> EndingOf(sc, s, frames) == EndingOf(sc, s, [whole])
  {
    WholeEnding(sc, s, whole);
    var i := Spelled(sc, frames);
    if i < |frames| { ConcatPrefix(frames, i + 1); }
  }

  lemma OneFrame(bytes: seq<Byte>)
    ensures Concat([bytes]) == bytes && Frames([bytes]) == Frame(bytes)
  {
    var none: seq<seq<Byte>> := [];
    assert [bytes][1..] == none && Concat(none) == [] && Frames(none) == [];
  }

  /** Exactly which cuts of a download are recorded like the download in one frame, whatever follows it. */
  lemma SplitStreamExactly(sc: Scenario, s: Recorder, frames: seq<seq<Byte>>)
    requires Downloading(s, frames) && Fit(frames) && |Concat(frames)| <= U64_MAX
    ensures RecordedAlike(sc, s, Frames(frames), Frame(Concat(frames))) <==> LikeWhole(sc, s, frames)
  {
    var whole := Concat(frames);
    if |whole| > MAX_FRAME_BYTES {
      TooLargeWhole(sc, s, frames);
    } else {
      OneFrame(whole);
      CutsAlikeExactly(sc, s, frames, [whole]);
      EndsLikeWhole(sc, s, frames, whole);
    }
  }

  lemma PairOfFrames(a: seq<Byte>, b: seq<Byte>)
    ensures Concat([a, b]) == a + b
  {
    assert [a, b][1..] == [b] && Concat([b]) == b;
  }

  /** Bytes that spell a reconnect command in one frame, and do not when they are cut in two. */
  lemma CutHidesReconnect(sc: Scenario, s: Recorder, a: seq<Byte>, b: seq<Byte>)
    requires !s.finished && s.expectedDataSize.Some? && Completes(s, a + b) && !IsTerminal(sc)
    requires b != [] && |a + b| <= MAX_FRAME_BYTES
    requires ReconnectsAfter(sc, a + b) && !ReconnectsAfter(sc, a) && !ReconnectsAfter(sc, b)
    ensures Downloading(s, [a, b]) && SplitsWell(s, [a, b]) && !LikeWhole(sc, s, [a, b])
    ensures Served(sc, s, Frames([a, b])).1 == Broken && Served(sc, s, Frame(a + b)).1 == Reconnecting
  {
    var none: seq<Byte> := [];
    PairOfFrames(a, b);
    CutInStream(sc, s, [a, b], none);
    assert Frames([a, b]) + none == Frames([a, b]);
    NotFinished(sc, s, a + b);
    assert Concat([a + b]) == a + b;
    WholeEnding(sc, s, a + b);
    CutInStream(sc, s, [a + b], none);
    assert Frames([a + b]) + none == Frame(a + b);
  }

  /** Such bytes, as a scenario that reconnects after the command "ab" meets them. */
  lemma DataCanSpellReconnect(sc: Scenario, s: Recorder)
    requires !s.finished && s.expectedDataSize == Some(2) && s.downloadBuffer == []
    requires sc.reconnectAfter == {"ab"} && !IsTerminal(sc)
    ensures Served(sc, s, Frames([[0x61], [0x62]])).1 == Broken && Served(sc, s, Frame([0x61, 0x62])).1 == Reconnecting
  {
    var a: seq<Byte>, b: seq<Byte> := [0x61], [0x62];
    assert a + b == [0x61, 0x62];
    assert Ascii(a).value == "a" && Ascii(b).value == "b" && Ascii(a + b).value == "ab";
    CutHidesReconnect(sc, s, a, b);
  }
}
