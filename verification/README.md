# Kawase blur render pass: a Dafny model

This project models the render pass `KawaseBlur.CustomRenderPass` of a Unity
Universal Render Pipeline feature. Every frame the pass records a short
command buffer. The first blit goes from the camera colour target into a
working texture. The pass then ping-pongs between its two working textures
with a growing `_offset`, swapping the two handle fields after each loop blit.
At the end it either blits back into the camera target or blits into the
second working texture and binds that texture globally under `targetName`.
`Configure` derives the descriptor of the two working textures from the
camera's descriptor and the `downsample` factor.

Files and modules:

- `int32.dfy` (`Int32`): C# `int` arithmetic as the pass uses it. Subtraction
  wraps. Division truncates toward zero, throws on a zero divisor, and throws
  on `int.MinValue / -1`.
- `command_buffer.dfy` (`CommandBuffer`): the three commands the pass records
  (`SetGlobalFloat("_offset", …)`, `Blit`, `SetGlobalTexture`). It also gives
  their meaning: the blits in order, each with the `_offset` in force, and the
  global texture bindings.
- `kawase_pass.dfy` (`KawaseBlurPass`): `Execute` as a pure reference
  function built on the recursive loop `PingPong`. It also holds
  `ExecutePass`, the imperative loop over two mutable handle slots, proved
  equal to `Execute`.
- `kawase_properties.dfy` (`KawaseBlurProperties`): the schedule in closed
  form, and the properties below.
- `kawase_configure.dfy` (`KawaseBlurConfigure`): `Configure`.

Modelling choices:

- Offsets are half-integers: 1.5, then `0.5 + i`, then `0.5 + passes - 1`.
  They are kept doubled as integers: 3, `2i + 1`, `2 * passes - 1`.
- The two working textures are `BlurRT1` and `BlurRT2`. The fields
  `rtHandle1` and `rtHandle2` each hold one of them. `Execute` swaps the
  two fields and does not restore them, so it returns the pass as it leaves
  it. Between two frames the engine also runs `FrameCleanup` and
  `Configure`; the two-frame properties assume that these leave both fields
  holding the textures `Execute` left there (see "Left out").
- `source` is the camera colour target `CameraColor`. Its type keeps it
  distinct from both working textures.
- The value of `_offset` before the buffer runs is a parameter (`ambient`).
  Every property holds for every value of it, so each blit's offset is set
  inside the frame.
- `passes` is a C# `int`. The loop test `i < passes - 1` is evaluated with
  unchecked 32-bit subtraction. For `passes == int.MinValue` the bound wraps
  to `int.MaxValue` and the loop runs 2^31 - 2 times; `BlitCount` states this
  case separately.

How the code behaves where a reader might expect otherwise:

- The pass does no validation. The editor range `[2, 15]` on `blurPasses`
  does not apply at run time, and the field default is 1. With `passes <= 1`
  (other than `int.MinValue`) the loop does not run and two blits are
  recorded. For `passes == 1` the final offset is 0.5; for `passes <= 0` it is
  negative (-0.5 at `passes == 0`).
- The loop offsets start at `0.5 + 1` = 1.5, so the sequence is
  1.5, 1.5, 2.5, …, `passes - 0.5`. It is not 1.5, 2.5, 3.5, ….
- The working size is `width / downsample` with no minimum. A camera narrower
  than `downsample` gives width 0, not 1. `downsample == 0` throws
  `DivideByZeroException` inside `Configure`, which is modelled as an error
  result.

## Model

| member | source | states |
|---|---|---|
| `Int32.Sub` | Assets/RenderPipeline/RenderPasses/KawaseBlur.cs:85 | `passes - 1` as unchecked 32-bit subtraction: exact when in range, otherwise off by exactly 2^32 |
| `Int32.Div` | Assets/RenderPipeline/RenderPasses/KawaseBlur.cs:52-53 | C# `int` division: error exactly when the divisor is 0, overflow exactly for `int.MinValue / -1`, otherwise the quotient rounded toward zero (`q * d` lies between 0 and `a` and misses `a` by less than one divisor) |
| `KawaseBlurConfigure.Configure` | Assets/RenderPipeline/RenderPasses/KawaseBlur.cs:50-63 | both working textures are requested with the same descriptor, bilinear filtering and names `_BlurRT1` / `_BlurRT2`; the descriptor has the truncated quotient of each camera dimension, depth 0, one MSAA sample, ARGB32, and every other camera field unchanged; error exactly when `downsample` is 0 or the division overflows |
| `KawaseBlurConfigure.DownsampledSize` | Assets/RenderPipeline/RenderPasses/KawaseBlur.cs:52-57 | for `downsample >= 1` and a camera of non-negative size, each working dimension is the floor quotient, at most the camera's; it equals the camera's at `downsample == 1` and is 0 when the camera is smaller than `downsample` |
| `KawaseBlurPass.Iterations` | Assets/RenderPipeline/RenderPasses/KawaseBlur.cs:85 | the loop `for (i = 1; i < passes - 1; i++)` runs `passes - 2` times for `passes >= 2`, never for `int.MinValue < passes < 2`, and `int.MaxValue - 1` times at `int.MinValue`, where `passes - 1` wraps |
| `KawaseBlurPass.PingPong` | Assets/RenderPipeline/RenderPasses/KawaseBlur.cs:85-94 | the loop from iteration `i` to `bound` records two commands per iteration and leaves the handle fields holding the same two textures, possibly swapped |
| `KawaseBlurPass.Execute` | Assets/RenderPipeline/RenderPasses/KawaseBlur.cs:74-112 | a frame records two commands per loop iteration plus four (copy back) or five (publish); it starts with `_offset` 1.5 and a blit from the source into `rtHandle1`; afterwards the handle fields hold the same two textures and no other field changes |
| `KawaseBlurPass.ExecutePass` | Assets/RenderPipeline/RenderPasses/KawaseBlur.cs:81-106 | the imperative loop that swaps two handle slots records exactly the commands of the recursive reference schedule and leaves the handle fields as it does |
| `KawaseBlurProperties.PingPongBlits` | Assets/RenderPipeline/RenderPasses/KawaseBlur.cs:85-94 | the loop from iteration `i` to `bound` performs `bound - i` blits; blit `k` reads the texture `rtHandle1` holds after `k` swaps, writes the one `rtHandle2` holds, with doubled offset `2(i + k) + 1` |
| `KawaseBlurProperties.PingPongHandles` | Assets/RenderPipeline/RenderPasses/KawaseBlur.cs:90-93 | after the loop the two handle fields hold what `n` swaps give, `n` being the iteration count |
| `KawaseBlurProperties.PingPongBindings` | Assets/RenderPipeline/RenderPasses/KawaseBlur.cs:85-94 | the loop binds no global texture |
| `KawaseBlurProperties.ExecuteSchedule` | Assets/RenderPipeline/RenderPasses/KawaseBlur.cs:81-106 | a frame performs `n + 2` blits (`n` loop iterations), and blit `k` is the closed-form first, loop or final blit, for every prior `_offset` |
| `KawaseBlurProperties.ExecuteBindings` | Assets/RenderPipeline/RenderPasses/KawaseBlur.cs:98-106 | a frame binds nothing when copying back, and otherwise binds exactly once, under `targetName`, the texture in `rtHandle2` after `n` swaps |
| `KawaseBlurProperties.ExecuteAfter` | Assets/RenderPipeline/RenderPasses/KawaseBlur.cs:85-94 | after a frame, the handle fields hold what `n` swaps give and every other field is unchanged |
| `KawaseBlurProperties.BlitCount` | Assets/RenderPipeline/RenderPasses/KawaseBlur.cs:83-104 | a frame performs `passes` blits when `passes >= 2`; 2 blits when `int.MinValue < passes <= 1`; 2^31 blits when `passes == int.MinValue` |
| `KawaseBlurProperties.OffsetSequence` | Assets/RenderPipeline/RenderPasses/KawaseBlur.cs:82-97 | the doubled offsets of the blits are `[3] ++ [2i + 1 for each loop iteration i] ++ [2 * passes - 1]`, whatever `_offset` held before |
| `KawaseBlurProperties.OffsetsForFourPasses` | Assets/RenderPipeline/RenderPasses/KawaseBlur.cs:82-97 | four passes run at offsets 1.5, 1.5, 2.5, 3.5 |
| `KawaseBlurProperties.OffsetsForTwoPasses` | Assets/RenderPipeline/RenderPasses/KawaseBlur.cs:82-97 | two passes run at offsets 1.5, 1.5 |
| `KawaseBlurProperties.OffsetsForOnePass` | Assets/RenderPipeline/RenderPasses/KawaseBlur.cs:82-97 | one pass (the field default) still runs two blits, at 1.5 and 0.5 |
| `KawaseBlurProperties.ReadAfterWrite` | Assets/RenderPipeline/RenderPasses/KawaseBlur.cs:83-104 | only the first blit reads the source; every later blit reads the target the blit before it wrote |
| `KawaseBlurProperties.NoInPlaceBlit` | Assets/RenderPipeline/RenderPasses/KawaseBlur.cs:83-104 | no blit reads and writes the same target if and only if the handle fields hold different textures, or the loop does not run and the result is copied back |
| `KawaseBlurProperties.SourceWrittenOnlyByFinalCopy` | Assets/RenderPipeline/RenderPasses/KawaseBlur.cs:98-104 | a blit writes the source if and only if `copyToFramebuffer` holds and it is the last blit |
| `KawaseBlurProperties.PublishedTexture` | Assets/RenderPipeline/RenderPasses/KawaseBlur.cs:98-106 | copying back binds nothing; otherwise exactly one binding, under `targetName`, of the final blit's destination, which is what `rtHandle2` holds when the frame ends |
| `KawaseBlurProperties.HandlesAfterFrame` | Assets/RenderPipeline/RenderPasses/KawaseBlur.cs:85-94 | a frame swaps `rtHandle1` and `rtHandle2` if and only if the loop ran an odd number of times, `max(0, passes - 2)` except at `int.MinValue`; no other field changes |
| `KawaseBlurProperties.TwoFramesRestoreHandles` | Assets/RenderPipeline/RenderPasses/KawaseBlur.cs:85-94 | for two consecutive calls of `Execute` with no reallocation or release between them, the swap carries over to the second call, and the two calls give both handle fields back their original textures |
| `KawaseBlurProperties.PublishedAcrossFrames` | Assets/RenderPipeline/RenderPasses/KawaseBlur.cs:85-105 | for two consecutive calls of `Execute` with no reallocation or release between them, publishing with two distinct textures, both calls bind the same texture if and only if the loop count is even |

## Left out

- Floating point: `SetGlobalFloat` receives a single-precision value. The
  model keeps the exact half-integer, doubled. Single precision represents
  these half-integers exactly only while they stay below 2^23 in magnitude,
  so the model and the float differ only for `|passes|` of about 2^23 or more.
- Texture lifetime: the model does not include `RenderingUtils.ReAllocateIfNeeded`
  deciding whether to reallocate, `FrameCleanup` releasing both handles,
  `CommandBufferPool.Get`/`Release`, `context.ExecuteCommandBuffer` or
  `cmd.Clear`. These are engine resource and submission calls. `Configure`
  stops at the two allocation requests.
- Null handles: `Execute` before any `Configure` would pass null handles to the
  engine. The model always has two textures in the fields.
- `ConfigureTarget(rtHandle1)` in `Configure` is an engine call that names the
  pass's attachment. It has no effect on the schedule.
- The descriptor `opaqueDesc` built in `Execute` is never used and has no
  effect.
- The material `blurMaterial` and its sampling are opaque. Every blit uses the
  same material, so a blit is recorded as source and destination only.
- `Setup(source)`, `Create` and `AddRenderPasses` (including the
  `UNITY_2022_1_OR_NEWER` branch) only copy settings and enqueue the pass.
  `renderPassEvent`, `profilerTag` and the editor `[Range]` attributes are
  left out too.
- Assets/PlayerController.cs only polls engine input and sets an animator flag.
- `Configure`: the descriptor keeps only a few representative fields besides
  those the pass sets. `Int32.Div` raises `Overflow` for `int.MinValue / -1`.
  C# leaves that case implementation-defined in an unchecked context, and .NET
  throws there.
- KawaseBlurProperties.TwoFramesRestoreHandles: assumes that `FrameCleanup`
  releasing both handles (KawaseBlur.cs:68-72) and the next `Configure`
  calling `ReAllocateIfNeeded` under the fixed names (KawaseBlur.cs:62-63)
  leave `rtHandle1` and `rtHandle2` holding the textures `Execute` left
  there. The engine's reallocation is not modelled, so the lemma speaks of
  two calls of `Execute` with nothing in between.
- KawaseBlurProperties.PublishedAcrossFrames: makes the same assumption about
  `FrameCleanup` and `Configure` between the two calls of `Execute`.
