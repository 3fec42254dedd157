/** `has_board_changed`: the pixel-change gate in front of the classifier. */
module Gate {
  import opened Wrappers
  import opened State

  /** The gate's answer and the image it caches for the next call. The
      first call (nothing cached yet) always reports a change; later calls
      report a change iff the new image differs in some pixel from the
      cached one. The newest image is cached whatever the answer. */
  function HasBoardChanged<I(==)>(lastImg: Option<I>, newImg: I): (r: (bool, Option<I>))
    ensures r.1 == Some(newImg)
    ensures lastImg == None ==> r.0
    ensures lastImg != None ==> (r.0 <==> lastImg.value != newImg)
  {
    match lastImg
    case None => (true, Some(newImg))
    case Some(prev) => (prev != newImg, Some(newImg))
  }

  /** The gate's answers over a run of captures, starting from a cache. */
  function GateRun<I(==)>(cache: Option<I>, imgs: seq<I>): (r: seq<bool>)
    ensures |r| == |imgs|
    decreases |imgs|
  {
    if |imgs| == 0 then []
    else
      var (changed, next) := HasBoardChanged(cache, imgs[0]);
      [changed] + GateRun(next, imgs[1..])
  }

  /** Each capture is compared with the capture just before it, not with
      the last capture that was reported as changed. */
  lemma {:induction false} GateComparesWithPrevious<I>(cache: Option<I>, imgs: seq<I>)
    ensures forall i :: 0 < i < |imgs| ==> (GateRun(cache, imgs)[i] <==> imgs[i - 1] != imgs[i])
    ensures |imgs| > 0 ==> (GateRun(cache, imgs)[0] <==> cache == None || cache.value != imgs[0])
    decreases |imgs|
  {
    if |imgs| > 0 {
      var next := Some(imgs[0]);
      GateComparesWithPrevious(next, imgs[1..]);
      var r := GateRun(cache, imgs);
      assert r[1..] == GateRun(next, imgs[1..]);
      forall i | 0 < i < |imgs|
        ensures r[i] <==> imgs[i - 1] != imgs[i]
      {
        if i > 1 {
          assert r[i] == GateRun(next, imgs[1..])[i - 1];
          assert imgs[1..][i - 2] == imgs[i - 1];
        } else {
          assert r[1] == GateRun(next, imgs[1..])[0];
        }
      }
    }
  }
}
