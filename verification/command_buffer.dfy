/** The command buffer the blur pass records into, reduced to the three kinds
    of command it issues, and what the buffer means once executed: which
    blits happen, in order, with which `_offset` in force. */
module CommandBuffer {

  /** The two working textures the pass allocates ("_BlurRT1", "_BlurRT2").
      The fields `rtHandle1` and `rtHandle2` each hold one of them. */
  datatype Texture = BlurRT1 | BlurRT2

  /** A render target a blit can read or write: the camera colour target the
      pass was set up with, or one of the working textures. */
  datatype Target = CameraColor | Rt(texture: Texture)

  /** `SetGlobalFloat("_offset", doubled / 2)`, `Blit(src, dst, blurMaterial)`
      and `SetGlobalTexture(name, texture)`. Every blit uses the same
      material, so the material is not recorded. */
  datatype Command =
    | SetOffset(doubled: int)
    | Blit(src: Target, dst: Target)
    | SetGlobalTexture(name: string, texture: Target)

  /** One executed blit and the doubled `_offset` the material sees during it. */
  datatype BlitRecord = BlitRecord(src: Target, dst: Target, offset: int)

  /** The doubled `_offset` after `cmds` run, starting from `offset`. */
  function OffsetAfter(cmds: seq<Command>, offset: int): (r: int)
    ensures (forall k :: 0 <= k < |cmds| ==> !cmds[k].SetOffset?) ==> r == offset
    ensures cmds != [] && cmds[|cmds| - 1].SetOffset? ==> r == cmds[|cmds| - 1].doubled
  {
    if cmds == [] then offset
    else OffsetAfter(cmds[1..], if cmds[0].SetOffset? then cmds[0].doubled else offset)
  }

  /** The blits `cmds` perform, each paired with the doubled `_offset` in
      force when it runs; `offset` is the value before the buffer starts. */
  function Blits(cmds: seq<Command>, offset: int): (r: seq<BlitRecord>)
    ensures |r| <= |cmds|
  {
    if cmds == [] then []
    else
      var o := if cmds[0].SetOffset? then cmds[0].doubled else offset;
      (if cmds[0].Blit? then [BlitRecord(cmds[0].src, cmds[0].dst, o)] else [])
        + Blits(cmds[1..], o)
  }

  /** The `SetGlobalTexture` calls of `cmds`, in order, as (name, texture). */
  function Bindings(cmds: seq<Command>): seq<(string, Target)>
  {
    if cmds == [] then []
    else
      (if cmds[0].SetGlobalTexture? then [(cmds[0].name, cmds[0].texture)] else [])
        + Bindings(cmds[1..])
  }

  lemma {:induction false} BlitsAppend(a: seq<Command>, b: seq<Command>, offset: int)
    ensures Blits(a + b, offset) == Blits(a, offset) + Blits(b, OffsetAfter(a, offset))
    decreases |a|
  {
    if a == [] {
      assert a + b == b;
    } else {
      assert (a + b)[1..] == a[1..] + b;
      var o := if a[0].SetOffset? then a[0].doubled else offset;
      BlitsAppend(a[1..], b, o);
    }
  }

  lemma {:induction false} BindingsAppend(a: seq<Command>, b: seq<Command>)
    ensures Bindings(a + b) == Bindings(a) + Bindings(b)
    decreases |a|
  {
    if a == [] {
      assert a + b == b;
    } else {
      assert (a + b)[0] == a[0];
      assert (a + b)[1..] == a[1..] + b;
      BindingsAppend(a[1..], b);
    }
  }
}
