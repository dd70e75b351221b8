/** What one frame of the blur pass does, stated over the blits its command
    buffer performs: how many, with which offsets, reading what and writing
    where, what it publishes, and how it leaves the two handle fields. */
module KawaseBlurProperties {
  import opened Int32
  import opened CommandBuffer
  import opened KawaseBlurPass

  /** The blits one frame performs, given the `_offset` left by earlier work. */
  function FrameBlits(p: BlurPass, ambient: int): seq<BlitRecord> {
    Blits(Execute(p).commands, ambient)
  }

  function Offsets(b: seq<BlitRecord>): (r: seq<int>)
    ensures |r| == |b|
  {
    seq(|b|, k requires 0 <= k < |b| => b[k].offset)
  }

  /** The offsets the source sets, doubled: 1.5 for the first pass, 0.5 + i
      for loop iteration i, and 0.5 + passes - 1 for the final pass. */
  function ExpectedOffsets(passes: int32): seq<int> {
    [3] + seq(Iterations(passes), k => 2 * k + 3) + [2 * passes - 1]
  }

  /** A `SetOffset` followed by a blit, optionally followed by a binding. */
  lemma StepBlits(x: int, src: Target, dst: Target, tail: seq<Command>, offset: int)
    requires tail == [] || (|tail| == 1 && tail[0].SetGlobalTexture?)
    ensures Blits([SetOffset(x), Blit(src, dst)] + tail, offset) == [BlitRecord(src, dst, x)]
    ensures OffsetAfter([SetOffset(x), Blit(src, dst)] + tail, offset) == x
    ensures Bindings([SetOffset(x), Blit(src, dst)] + tail) == Bindings(tail)
  {
    var cmds := [SetOffset(x), Blit(src, dst)] + tail;
    assert cmds[0] == SetOffset(x);
    assert cmds[1..] == [Blit(src, dst)] + tail;
    assert cmds[1..][0] == Blit(src, dst);
    assert cmds[1..][1..] == tail;
    if tail != [] {
      assert tail[1..] == [];
      assert Blits(tail, x) == [];
    }
    assert Blits(cmds[1..], x) == [BlitRecord(src, dst, x)];
  }

  lemma {:induction false} PingPongHandles(h1: Texture, h2: Texture, i: int, bound: int)
    ensures var n := if bound > i then bound - i else 0;
      && PingPong(h1, h2, i, bound).handle1 == AfterSwaps(h1, h2, n)
      && PingPong(h1, h2, i, bound).handle2 == AfterSwaps(h1, h2, n + 1)
    decreases bound - i
  {
    if i < bound {
      PingPongHandles(h2, h1, i + 1, bound);
      assert AfterSwaps(h2, h1, bound - i - 1) == AfterSwaps(h1, h2, bound - i);
      assert AfterSwaps(h2, h1, bound - i) == AfterSwaps(h1, h2, bound - i + 1);
    }
  }

  lemma {:induction false} PingPongBindings(h1: Texture, h2: Texture, i: int, bound: int)
    ensures Bindings(PingPong(h1, h2, i, bound).commands) == []
    decreases bound - i
  {
    if i < bound {
      var step := [SetOffset(2 * i + 1), Blit(Rt(h1), Rt(h2))];
      var rest := PingPong(h2, h1, i + 1, bound);
      assert PingPong(h1, h2, i, bound).commands == step + rest.commands;
      PingPongBindings(h2, h1, i + 1, bound);
      BindingsAppend(step, rest.commands);
      StepBlits(2 * i + 1, Rt(h1), Rt(h2), [], 0);
      assert step + [] == step;
    }
  }

  lemma {:induction false} PingPongBlits(h1: Texture, h2: Texture, i: int, bound: int, offset: int)
    ensures var n := if bound > i then bound - i else 0;
      var b := Blits(PingPong(h1, h2, i, bound).commands, offset);
      && |b| == n
      && (forall k :: 0 <= k < n ==>
            b[k] == BlitRecord(Rt(AfterSwaps(h1, h2, k)), Rt(AfterSwaps(h1, h2, k + 1)), 2 * (i + k) + 1))
    decreases bound - i
  {
    if i < bound {
      var step := [SetOffset(2 * i + 1), Blit(Rt(h1), Rt(h2))];
      var rest := PingPong(h2, h1, i + 1, bound);
      assert PingPong(h1, h2, i, bound).commands == step + rest.commands;
      PingPongBlits(h2, h1, i + 1, bound, 2 * i + 1);
      BlitsAppend(step, rest.commands, offset);
      StepBlits(2 * i + 1, Rt(h1), Rt(h2), [], offset);
      assert step + [] == step;
      var b := Blits(PingPong(h1, h2, i, bound).commands, offset);
      var tail := Blits(rest.commands, 2 * i + 1);
      assert b == [BlitRecord(Rt(h1), Rt(h2), 2 * i + 1)] + tail;
      LoopBlitsShift(h1, h2, i, b, tail);
    }
  }

  /** Swapping the two fields once more is the same as starting from them
      swapped. */
  lemma AfterSwapsShift(h1: Texture, h2: Texture, k: nat)
    ensures AfterSwaps(h2, h1, k) == AfterSwaps(h1, h2, k + 1)
  {
  }

  /** Prepending iteration `i` to the blits of iterations `i + 1` on, which
      started from the fields swapped. */
  lemma LoopBlitsShift(h1: Texture, h2: Texture, i: int, b: seq<BlitRecord>, tail: seq<BlitRecord>)
    requires b == [BlitRecord(Rt(h1), Rt(h2), 2 * i + 1)] + tail
    requires forall k :: 0 <= k < |tail| ==>
      tail[k] == BlitRecord(Rt(AfterSwaps(h2, h1, k)), Rt(AfterSwaps(h2, h1, k + 1)), 2 * (i + 1 + k) + 1)
    ensures forall k :: 0 <= k < |b| ==>
      b[k] == BlitRecord(Rt(AfterSwaps(h1, h2, k)), Rt(AfterSwaps(h1, h2, k + 1)), 2 * (i + k) + 1)
  {
    forall k | 0 < k < |b|
      ensures b[k] == BlitRecord(Rt(AfterSwaps(h1, h2, k)), Rt(AfterSwaps(h1, h2, k + 1)), 2 * (i + k) + 1)
    {
      assert b[k] == tail[k - 1];
      AfterSwapsShift(h1, h2, k - 1);
      AfterSwapsShift(h1, h2, k);
    }
  }

  lemma FirstPassCommands(h1: Texture, offset: int)
    ensures Blits(FirstPass(h1), offset) == [BlitRecord(CameraColor, Rt(h1), 3)]
    ensures OffsetAfter(FirstPass(h1), offset) == 3
    ensures Bindings(FirstPass(h1)) == []
  {
    StepBlits(3, CameraColor, Rt(h1), [], offset);
    assert FirstPass(h1) + [] == FirstPass(h1);
  }

  lemma FinalPassCommands(p: BlurPass, h1: Texture, h2: Texture, offset: int)
    ensures Blits(FinalPass(p, h1, h2), offset)
         == [BlitRecord(Rt(h1), FinalTarget(p.copyToFramebuffer, h2), 2 * p.passes - 1)]
    ensures Bindings(FinalPass(p, h1, h2)) == if p.copyToFramebuffer then [] else [(p.targetName, Rt(h2))]
  {
    var publish: seq<Command> := if p.copyToFramebuffer then [] else [SetGlobalTexture(p.targetName, Rt(h2))];
    assert FinalPass(p, h1, h2)
        == [SetOffset(2 * p.passes - 1), Blit(Rt(h1), FinalTarget(p.copyToFramebuffer, h2))] + publish;
    StepBlits(2 * p.passes - 1, Rt(h1), FinalTarget(p.copyToFramebuffer, h2), publish, offset);
    if !p.copyToFramebuffer {
      assert Bindings(publish) == [(p.targetName, Rt(h2))] + Bindings(publish[1..]);
      assert publish[1..] == [];
    }
  }

  /** The blits of one frame: the first pass, the loop, the final pass. */
  lemma ExecuteBlitsSplit(p: BlurPass, ambient: int)
    ensures var loop := PingPong(p.rtHandle1, p.rtHandle2, 1, LoopBound(p.passes));
      FrameBlits(p, ambient) ==
        [BlitRecord(CameraColor, Rt(p.rtHandle1), 3)]
        + Blits(loop.commands, 3)
        + [BlitRecord(Rt(loop.handle1), FinalTarget(p.copyToFramebuffer, loop.handle2), 2 * p.passes - 1)]
  {
    var loop := PingPong(p.rtHandle1, p.rtHandle2, 1, LoopBound(p.passes));
    var first := FirstPass(p.rtHandle1);
    var last := FinalPass(p, loop.handle1, loop.handle2);
    assert Execute(p).commands == first + loop.commands + last;
    BlitsAppend(first + loop.commands, last, ambient);
    BlitsAppend(first, loop.commands, ambient);
    FirstPassCommands(p.rtHandle1, ambient);
    FinalPassCommands(p, loop.handle1, loop.handle2, OffsetAfter(first + loop.commands, ambient));
  }

  /** The blits of one frame, blit by blit. */
  lemma ExecuteBlits(p: BlurPass, ambient: int)
    ensures var b := FrameBlits(p, ambient);
      var n := Iterations(p.passes);
      && |b| == n + 2
      && b[0] == BlitRecord(CameraColor, Rt(p.rtHandle1), 3)
      && (forall k :: 1 <= k <= n ==>
            b[k] == BlitRecord(Rt(AfterSwaps(p.rtHandle1, p.rtHandle2, k - 1)),
                               Rt(AfterSwaps(p.rtHandle1, p.rtHandle2, k)), 2 * k + 1))
      && b[n + 1] == BlitRecord(Rt(AfterSwaps(p.rtHandle1, p.rtHandle2, n)),
                                FinalTarget(p.copyToFramebuffer, AfterSwaps(p.rtHandle1, p.rtHandle2, n + 1)),
                                2 * p.passes - 1)
  {
    var h1, h2 := p.rtHandle1, p.rtHandle2;
    var loop := PingPong(h1, h2, 1, LoopBound(p.passes));
    PingPongHandles(h1, h2, 1, LoopBound(p.passes));
    PingPongBlits(h1, h2, 1, LoopBound(p.passes), 3);
    ExecuteBlitsSplit(p, ambient);
    Bracketed(BlitRecord(CameraColor, Rt(h1), 3), Blits(loop.commands, 3),
              BlitRecord(Rt(loop.handle1), FinalTarget(p.copyToFramebuffer, loop.handle2), 2 * p.passes - 1));
  }

  /** Indexing into a sequence with one element added at each end. */
  lemma Bracketed<T>(first: T, middle: seq<T>, last: T)
    ensures var s := [first] + middle + [last];
      && |s| == |middle| + 2
      && s[0] == first
      && s[|middle| + 1] == last
      && forall k :: 1 <= k <= |middle| ==> s[k] == middle[k - 1]
  {
  }

  /** Blit `k` of a frame, in closed form: the first pass, loop iteration
      `k`, or the final pass. */
  function ScheduledBlit(p: BlurPass, k: nat): BlitRecord {
    var n := Iterations(p.passes);
    var h1, h2 := p.rtHandle1, p.rtHandle2;
    if k == 0 then BlitRecord(CameraColor, Rt(h1), 3)
    else if k <= n then BlitRecord(Rt(AfterSwaps(h1, h2, k - 1)), Rt(AfterSwaps(h1, h2, k)), 2 * k + 1)
    else BlitRecord(Rt(AfterSwaps(h1, h2, n)), FinalTarget(p.copyToFramebuffer, AfterSwaps(h1, h2, n + 1)),
                    2 * p.passes - 1)
  }

  lemma ExecuteSchedule(p: BlurPass, ambient: int)
    ensures |FrameBlits(p, ambient)| == Iterations(p.passes) + 2
    ensures forall k :: 0 <= k < |FrameBlits(p, ambient)| ==> FrameBlits(p, ambient)[k] == ScheduledBlit(p, k)
  {
    ExecuteBlits(p, ambient);
  }

  /** The `SetGlobalTexture` calls of one frame. */
  lemma ExecuteBindings(p: BlurPass)
    ensures Bindings(Execute(p).commands) ==
      if p.copyToFramebuffer then []
      else [(p.targetName, Rt(AfterSwaps(p.rtHandle1, p.rtHandle2, Iterations(p.passes) + 1)))]
  {
    var loop := PingPong(p.rtHandle1, p.rtHandle2, 1, LoopBound(p.passes));
    PingPongHandles(p.rtHandle1, p.rtHandle2, 1, LoopBound(p.passes));
    PingPongBindings(p.rtHandle1, p.rtHandle2, 1, LoopBound(p.passes));
    var first := FirstPass(p.rtHandle1);
    var last := FinalPass(p, loop.handle1, loop.handle2);
    assert Execute(p).commands == first + loop.commands + last;
    BindingsAppend(first + loop.commands, last);
    BindingsAppend(first, loop.commands);
    FirstPassCommands(p.rtHandle1, 0);
    FinalPassCommands(p, loop.handle1, loop.handle2, 0);
  }


  /** The pass as one frame leaves it. */
  lemma ExecuteAfter(p: BlurPass)
    ensures Execute(p).after == p.(rtHandle1 := AfterSwaps(p.rtHandle1, p.rtHandle2, Iterations(p.passes)),
                                   rtHandle2 := AfterSwaps(p.rtHandle1, p.rtHandle2, Iterations(p.passes) + 1))
  {
    PingPongHandles(p.rtHandle1, p.rtHandle2, 1, LoopBound(p.passes));
  }

  /** A frame performs `passes` blits when `passes >= 2`, and two blits for
      any smaller count except `int.MinValue`, where `passes - 1` wraps. */
  lemma BlitCount(p: BlurPass, ambient: int)
    ensures |FrameBlits(p, ambient)| == Iterations(p.passes) + 2
    ensures p.passes >= 2 ==> |FrameBlits(p, ambient)| == p.passes
    ensures MinInt32 < p.passes <= 1 ==> |FrameBlits(p, ambient)| == 2
    ensures p.passes == MinInt32 ==> |FrameBlits(p, ambient)| == MaxInt32 + 1
  {
    ExecuteBlits(p, ambient);
  }

  /** The blits run with offsets 1.5, then 0.5 + i for each loop iteration,
      then 0.5 + passes - 1, whatever `_offset` held before the frame. */
  lemma OffsetSequence(p: BlurPass, ambient: int)
    ensures Offsets(FrameBlits(p, ambient)) == ExpectedOffsets(p.passes)
  {
    ExecuteSchedule(p, ambient);
    var b := FrameBlits(p, ambient);
    var e := ExpectedOffsets(p.passes);
    var n := Iterations(p.passes);
    var loop := seq(n, j => 2 * j + 3);
    assert e == [3] + loop + [2 * p.passes - 1];
    forall k | 0 <= k < |b|
      ensures Offsets(b)[k] == e[k]
    {
      assert b[k] == ScheduledBlit(p, k);
      if k == 0 {
      } else if k <= n {
        assert e[k] == loop[k - 1];
      } else {
        assert k == n + 1;
      }
    }
  }

  lemma OffsetsForFourPasses(p: BlurPass, ambient: int)
    requires p.passes == 4
    ensures Offsets(FrameBlits(p, ambient)) == [3, 3, 5, 7]
  {
    OffsetSequence(p, ambient);
    assert seq(2, k => 2 * k + 3) == [3, 5];
  }

  lemma OffsetsForTwoPasses(p: BlurPass, ambient: int)
    requires p.passes == 2
    ensures Offsets(FrameBlits(p, ambient)) == [3, 3]
  {
    OffsetSequence(p, ambient);
    assert seq(0, k => 2 * k + 3) == [];
  }

  /** The field default of one pass still runs two blits; the last at 0.5. */
  lemma OffsetsForOnePass(p: BlurPass, ambient: int)
    requires p.passes == 1
    ensures Offsets(FrameBlits(p, ambient)) == [3, 1]
  {
    OffsetSequence(p, ambient);
    assert seq(0, k => 2 * k + 3) == [];
  }

  /** Only the first blit reads the source; every later blit reads what the
      blit before it wrote. */
  lemma ReadAfterWrite(p: BlurPass, ambient: int)
    ensures var b := FrameBlits(p, ambient);
      && |b| >= 2
      && b[0].src == CameraColor
      && (forall k :: 1 <= k < |b| ==> b[k].src == b[k - 1].dst && b[k].src != CameraColor)
  {
    ExecuteSchedule(p, ambient);
    var b := FrameBlits(p, ambient);
    assert b[0] == ScheduledBlit(p, 0);
    forall k | 1 <= k < |b|
      ensures b[k].src == b[k - 1].dst && b[k].src != CameraColor
    {
      assert b[k] == ScheduledBlit(p, k);
      assert b[k - 1] == ScheduledBlit(p, k - 1);
    }
  }

  /** No blit reads and writes the same target exactly when the two handle
      fields hold different textures, or no blit would touch both of them
      (no loop iteration and the result copied back to the source). */
  lemma NoInPlaceBlit(p: BlurPass, ambient: int)
    ensures var b := FrameBlits(p, ambient);
      (forall k :: 0 <= k < |b| ==> b[k].src != b[k].dst) <==>
        (p.rtHandle1 != p.rtHandle2 || (Iterations(p.passes) == 0 && p.copyToFramebuffer))
  {
    ExecuteSchedule(p, ambient);
    var b := FrameBlits(p, ambient);
    var n := Iterations(p.passes);
    if p.rtHandle1 != p.rtHandle2 || (n == 0 && p.copyToFramebuffer) {
      forall k | 0 <= k < |b|
        ensures b[k].src != b[k].dst
      {
        assert b[k] == ScheduledBlit(p, k);
      }
    } else {
      assert b[1] == ScheduledBlit(p, 1);
      assert b[1].src == b[1].dst;
    }
  }

  /** The source is written only when copying back, and then only by the
      last blit. */
  lemma SourceWrittenOnlyByFinalCopy(p: BlurPass, ambient: int)
    ensures var b := FrameBlits(p, ambient);
      forall k :: 0 <= k < |b| ==>
        (b[k].dst == CameraColor <==> p.copyToFramebuffer && k == |b| - 1)
  {
    ExecuteSchedule(p, ambient);
    var b := FrameBlits(p, ambient);
    forall k | 0 <= k < |b|
      ensures b[k].dst == CameraColor <==> p.copyToFramebuffer && k == |b| - 1
    {
      assert b[k] == ScheduledBlit(p, k);
    }
  }

  /** Copying back publishes nothing; otherwise exactly one texture is bound
      under `targetName`: the one the final blit wrote, which is the one
      `rtHandle2` holds when the frame ends. */
  lemma PublishedTexture(p: BlurPass, ambient: int)
    ensures var b := FrameBlits(p, ambient);
      var f := Execute(p);
      && |b| >= 2
      && (p.copyToFramebuffer ==> Bindings(f.commands) == [])
      && (!p.copyToFramebuffer ==>
            && Bindings(f.commands) == [(p.targetName, b[|b| - 1].dst)]
            && b[|b| - 1].dst == Rt(f.after.rtHandle2))
  {
    ExecuteBlits(p, ambient);
    ExecuteBindings(p);
    ExecuteAfter(p);
  }

  /** One frame swaps `rtHandle1` and `rtHandle2` exactly when the loop ran
      an odd number of times, which is `max(0, passes - 2)` except at
      `int.MinValue`; no other field changes. */
  lemma HandlesAfterFrame(p: BlurPass)
    ensures var a := Execute(p).after;
      && a.(rtHandle1 := p.rtHandle1, rtHandle2 := p.rtHandle2) == p
      && (Iterations(p.passes) % 2 == 0 ==> a == p)
      && (Iterations(p.passes) % 2 == 1 ==> a.rtHandle1 == p.rtHandle2 && a.rtHandle2 == p.rtHandle1)
    ensures p.passes != MinInt32 ==> Iterations(p.passes) == if p.passes >= 2 then p.passes - 2 else 0
  {
    ExecuteAfter(p);
  }

  /** Two calls of `Execute` in a row, with nothing changing the handle
      fields between them, give both fields back their original textures. */
  lemma TwoFramesRestoreHandles(p: BlurPass)
    ensures Execute(Execute(p).after).after == p
  {
    var a := Execute(p).after;
    HandlesAfterFrame(p);
    HandlesAfterFrame(a);
  }

  /** When publishing, two calls of `Execute` in a row, with nothing changing
      the handle fields between them, bind the same texture exactly when the
      loop runs an even number of times. */
  lemma PublishedAcrossFrames(p: BlurPass)
    requires !p.copyToFramebuffer && p.rtHandle1 != p.rtHandle2
    ensures var f1 := Execute(p);
      var f2 := Execute(f1.after);
      Bindings(f1.commands) == Bindings(f2.commands) <==> Iterations(p.passes) % 2 == 0
  {
    var n := Iterations(p.passes);
    var a := Execute(p).after;
    ExecuteAfter(p);
    assert a.passes == p.passes && a.copyToFramebuffer == p.copyToFramebuffer && a.targetName == p.targetName;
    ExecuteBindings(p);
    ExecuteBindings(a);
    var t1 := AfterSwaps(p.rtHandle1, p.rtHandle2, n + 1);
    var t2 := AfterSwaps(a.rtHandle1, a.rtHandle2, n + 1);
    assert Bindings(Execute(p).commands) == [(p.targetName, Rt(t1))];
    assert Bindings(Execute(a).commands) == [(p.targetName, Rt(t2))];
    if n % 2 == 0 {
      assert t2 == t1;
    } else {
      assert t1 == p.rtHandle1 && t2 == p.rtHandle2;
      assert [(p.targetName, Rt(t1))][0] != [(p.targetName, Rt(t2))][0];
    }
  }
}
