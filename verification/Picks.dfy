/** Selects that are written as a list of names and ambiguous selectors. */
module Picks {
  import opened Selectors
  import opened Paths

  datatype Pick = Name(name: string) | Wild(sel: BranchSelector)

  function SegmentOf(p: Pick): Segment {
    match p
    case Name(name) => Single(Direct(ConstKey(name)))
    case Wild(sel) => Branch(sel)
  }

  function ToSegments(picks: seq<Pick>): (segments: seq<Segment>)
    ensures |segments| == |picks| && forall i | 0 <= i < |segments| :: segments[i] == SegmentOf(picks[i])
  {
    seq(|picks|, i requires 0 <= i < |picks| => SegmentOf(picks[i]))
  }

  function WildCount(picks: seq<Pick>): nat {
    if picks == [] then 0
    else WildCount(picks[..|picks| - 1]) + if picks[|picks| - 1].Wild? then 1 else 0
  }

  /** Names, stars and `..`. */
  predicate Simple(p: Pick) { p.Wild? ==> IsStar(p.sel) || p.sel.Descend? }

  predicate AllSimple(picks: seq<Pick>) { forall i | 0 <= i < |picks| :: Simple(picks[i]) }

  lemma MorePicks(init: seq<Pick>, pick: Pick)
    ensures ToSegments(init + [pick]) == ToSegments(init) + [SegmentOf(pick)]
    ensures ToSegments(init + [pick])[..|init|] == ToSegments(init)
  {
    assert (init + [pick])[..|init|] == init;
  }
}
