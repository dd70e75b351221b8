/** `KawaseBlur.CustomRenderPass.Execute`: the per-frame blur schedule.

    The pass records a first blit from the camera colour target into the
    texture held by `rtHandle1`, then ping-pongs between the two working
    textures with a growing `_offset`, swapping the two handle fields after
    every loop blit, and finishes either by blitting back into the camera
    target or by blitting into `rtHandle2` and publishing it under
    `targetName`. Offsets are half-integers and are kept doubled. */
module KawaseBlurPass {
  import opened Int32
  import opened CommandBuffer

  /** The fields of the pass that `Execute` reads or writes; `source` is
      always `CameraColor`. The field `downsample` is read only by
      `Configure`, which takes it as a parameter. */
  datatype BlurPass = BlurPass(
    passes: int32,
    copyToFramebuffer: bool,
    targetName: string,
    rtHandle1: Texture,
    rtHandle2: Texture)

  /** What one call of `Execute` produces: the recorded commands and the
      pass as the call leaves it. */
  datatype Frame = Frame(commands: seq<Command>, after: BlurPass)

  /** The recorded loop from iteration `i` on and the two handle fields
      as the loop leaves them. */
  datatype Loop = Loop(commands: seq<Command>, handle1: Texture, handle2: Texture)

  /** The upper bound of the loop, `passes - 1` evaluated as unchecked C#
      `int` arithmetic: `int.MinValue - 1` wraps to `int.MaxValue`. */
  function LoopBound(passes: int32): int32 {
    Sub(passes, 1)
  }

  /** How often the loop `for (i = 1; i < passes - 1; i++)` runs: never for
      fewer than two passes, except that `int.MinValue - 1` wraps around. */
  function Iterations(passes: int32): (n: nat)
    ensures passes >= 2 ==> n == passes - 2
    ensures MinInt32 < passes < 2 ==> n == 0
    ensures passes == MinInt32 ==> n == MaxInt32 - 1
  {
    var bound := LoopBound(passes);
    if bound > 1 then bound - 1 else 0
  }

  /** The texture in the first of two fields that held `h1` and `h2`, after
      the fields have been swapped `k` times; `k + 1` gives the second field. */
  function AfterSwaps(h1: Texture, h2: Texture, k: nat): Texture {
    if k % 2 == 0 then h1 else h2
  }

  /** Loop iterations `i`, `i + 1`, ... below `bound`, with `h1` and `h2` the
      textures currently held by `rtHandle1` and `rtHandle2`: set `_offset`
      to `0.5 + i`, blit from `h1` into `h2`, then swap the fields. */
  function PingPong(h1: Texture, h2: Texture, i: int, bound: int): (r: Loop)
    ensures |r.commands| == if i < bound then 2 * (bound - i) else 0
    ensures (r.handle1, r.handle2) == (h1, h2) || (r.handle1, r.handle2) == (h2, h1)
    decreases bound - i
  {
    if i >= bound then Loop([], h1, h2)
    else
      var rest := PingPong(h2, h1, i + 1, bound);
      Loop([SetOffset(2 * i + 1), Blit(Rt(h1), Rt(h2))] + rest.commands, rest.handle1, rest.handle2)
  }

  /** The first pass: `_offset` 1.5, blit from the source into `rtHandle1`. */
  function FirstPass(h1: Texture): seq<Command> {
    [SetOffset(3), Blit(CameraColor, Rt(h1))]
  }

  /** Where the final pass writes: back into the source, or into `rtHandle2`. */
  function FinalTarget(copyToFramebuffer: bool, h2: Texture): Target {
    if copyToFramebuffer then CameraColor else Rt(h2)
  }

  /** The final pass: `_offset` 0.5 + passes - 1, blit from `rtHandle1`, and
      when not copying back, bind `rtHandle2` under `targetName`. */
  function FinalPass(p: BlurPass, h1: Texture, h2: Texture): seq<Command> {
    [SetOffset(2 * p.passes - 1), Blit(Rt(h1), FinalTarget(p.copyToFramebuffer, h2))]
      + if p.copyToFramebuffer then [] else [SetGlobalTexture(p.targetName, Rt(h2))]
  }

  /** The reference definition of `Execute`, with `source` the camera target. */
  function Execute(p: BlurPass): (r: Frame)
    ensures |r.commands| == 2 * Iterations(p.passes) + if p.copyToFramebuffer then 4 else 5
    ensures r.commands[0] == SetOffset(3) && r.commands[1] == Blit(CameraColor, Rt(p.rtHandle1))
    ensures || (r.after.rtHandle1, r.after.rtHandle2) == (p.rtHandle1, p.rtHandle2)
            || (r.after.rtHandle1, r.after.rtHandle2) == (p.rtHandle2, p.rtHandle1)
    ensures r.after.(rtHandle1 := p.rtHandle1, rtHandle2 := p.rtHandle2) == p
  {
    var loop := PingPong(p.rtHandle1, p.rtHandle2, 1, LoopBound(p.passes));
    Frame(FirstPass(p.rtHandle1) + loop.commands + FinalPass(p, loop.handle1, loop.handle2),
          p.(rtHandle1 := loop.handle1, rtHandle2 := loop.handle2))
  }

  /** `Execute` as the source writes it: a counting loop over two mutable
      handle slots that are swapped after every loop blit. */
  method ExecutePass(p: BlurPass) returns (commands: seq<Command>, after: BlurPass)
    ensures Frame(commands, after) == Execute(p)
  {
    var rtHandle1, rtHandle2 := p.rtHandle1, p.rtHandle2;
    var bound := LoopBound(p.passes);
    ghost var whole := PingPong(p.rtHandle1, p.rtHandle2, 1, bound);
    ghost var first := FirstPass(p.rtHandle1);

    // first pass
    commands := [SetOffset(3), Blit(CameraColor, Rt(rtHandle1))];

    var i: int := 1;
    while i < bound
      invariant 1 <= i <= MaxInt32
      invariant var rest := PingPong(rtHandle1, rtHandle2, i, bound);
        commands + rest.commands == first + whole.commands && rest.handle1 == whole.handle1 && rest.handle2 == whole.handle2
      decreases bound - i
    {
      ghost var step := [SetOffset(2 * i + 1), Blit(Rt(rtHandle1), Rt(rtHandle2))];
      ghost var rest := PingPong(rtHandle2, rtHandle1, i + 1, bound);
      assert commands + (step + rest.commands) == (commands + step) + rest.commands;
      commands := commands + [SetOffset(2 * i + 1), Blit(Rt(rtHandle1), Rt(rtHandle2))];

      // ping-pong
      var tmp := rtHandle1;
      rtHandle1 := rtHandle2;
      rtHandle2 := tmp;
      i := i + 1;
    }
    assert commands == first + whole.commands;
    ghost var last := FinalPass(p, rtHandle1, rtHandle2);

    // final pass
    commands := commands + [SetOffset(2 * p.passes - 1)];
    if p.copyToFramebuffer {
      commands := commands + [Blit(Rt(rtHandle1), CameraColor)];
    } else {
      commands := commands + [Blit(Rt(rtHandle1), Rt(rtHandle2))];
      commands := commands + [SetGlobalTexture(p.targetName, Rt(rtHandle2))];
    }
    assert commands == first + whole.commands + last;
    after := p.(rtHandle1 := rtHandle1, rtHandle2 := rtHandle2);
  }
}
