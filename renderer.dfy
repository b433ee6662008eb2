/**
 * The upscaler registry of `Renderer.cpp`: a global list of (renderer, upscaler)
 * name pairs that renderers add themselves to once.
 */
module Renderer {
  import opened Common

  type UpscalerPair = (string, string)

  /** The list after registering `p`: unchanged when `p` is already listed, else `p` appended. */
  function Registered(list: seq<UpscalerPair>, p: UpscalerPair): (r: seq<UpscalerPair>)
    ensures p in r
    ensures |r| == if p in list then |list| else |list| + 1
    ensures r[..|list|] == list
    ensures forall q :: q in r <==> q in list || q == p
    ensures NoDuplicates(list) ==> NoDuplicates(r)
  {
    if p in list then list else list + [p]
  }

  /** Registering the same pair twice is the same as registering it once. */
  lemma RegisteredIdempotent(list: seq<UpscalerPair>, p: UpscalerPair)
    ensures Registered(Registered(list, p), p) == Registered(list, p)
  {
  }

  /** Registering pairs one after another, as successive calls do. */
  function RegisteredAll(list: seq<UpscalerPair>, ps: seq<UpscalerPair>): seq<UpscalerPair>
    decreases |ps|
  {
    if ps == [] then list else RegisteredAll(Registered(list, ps[0]), ps[1..])
  }

  /** After any sequence of registrations the list keeps its old entries, in order, at its front. */
  lemma {:induction false} RegisteredAllKeepsPrefix(list: seq<UpscalerPair>, ps: seq<UpscalerPair>)
    ensures |RegisteredAll(list, ps)| >= |list|
    ensures RegisteredAll(list, ps)[..|list|] == list
    decreases |ps|
  {
    if ps != [] {
      var next := Registered(list, ps[0]);
      RegisteredAllKeepsPrefix(next, ps[1..]);
      var r := RegisteredAll(next, ps[1..]);
      assert r[..|list|] == r[..|next|][..|list|];
    }
  }

  /** After any sequence of registrations the list holds exactly the old and the registered pairs. */
  lemma {:induction false} RegisteredAllMembers(list: seq<UpscalerPair>, ps: seq<UpscalerPair>)
    ensures forall q :: q in RegisteredAll(list, ps) <==> q in list || q in ps
    decreases |ps|
  {
    if ps != [] {
      var next := Registered(list, ps[0]);
      RegisteredAllMembers(next, ps[1..]);
      assert ps == [ps[0]] + ps[1..];
      assert forall q :: q in ps <==> q == ps[0] || q in ps[1..];
    }
  }

  /** Registrations never introduce a duplicate. */
  lemma {:induction false} RegisteredAllDistinct(list: seq<UpscalerPair>, ps: seq<UpscalerPair>)
    requires NoDuplicates(list)
    ensures NoDuplicates(RegisteredAll(list, ps))
    decreases |ps|
  {
    if ps != [] {
      RegisteredAllDistinct(Registered(list, ps[0]), ps[1..]);
    }
  }

  /** The global `upscalers` list. */
  class UpscalerRegistry {
    var upscalers: seq<UpscalerPair>

    ghost predicate Valid()
      reads this
    {
      NoDuplicates(upscalers)
    }

    constructor ()
      ensures Valid() && upscalers == []
    {
      upscalers := [];
    }

    /** `registerUpscaler`: the pair is appended unless it is already listed. */
    method RegisterUpscaler(rendererName: string, upscalerName: string)
      requires Valid()
      modifies this
      ensures Valid()
      ensures upscalers == Registered(old(upscalers), (rendererName, upscalerName))
    {
      var p := (rendererName, upscalerName);
      if p !in upscalers {
        upscalers := upscalers + [p];
      }
    }

    /** `getRegisteredUpscalers`: a copy of the current list. */
    method GetRegisteredUpscalers() returns (list: seq<UpscalerPair>)
      ensures list == upscalers
    {
      list := upscalers;
    }
  }
}
