/**
 The AS_PATH attribute: prepending, confederation segments, and what best-path
 selection reads from a path.
 */
module AsPaths {
  import opened Types

  const MAX_SEGMENT: nat := 255

  predicate IsConfed(seg: Segment) {
    seg.ConfedSequence? || seg.ConfedSet?
  }

  function SegmentLength(seg: Segment): nat {
    match seg
    case Sequence(asns) => |asns|
    case Set(_) => 1
    case _ => 0
  }

  function PathLength(p: AsPath): nat {
    if p == [] then 0 else SegmentLength(p[0]) + PathLength(p[1..])
  }

  /** The first AS of the first non-empty Sequence; other segments are skipped. */
  function NeighboringAs(p: AsPath): Option<Asn> {
    if p == [] then None
    else if p[0].Sequence? && p[0].asns != [] then Some(p[0].asns[0])
    else NeighboringAs(p[1..])
  }

  function Prepend(p: AsPath, asn: Asn): AsPath {
    if p != [] && p[0].Sequence? && |p[0].asns| < MAX_SEGMENT
    then [Sequence([asn] + p[0].asns)] + p[1..]
    else [Sequence([asn])] + p
  }

  function PrependConfed(p: AsPath, asn: Asn): AsPath {
    if p != [] && p[0].ConfedSequence? && |p[0].asns| < MAX_SEGMENT
    then [ConfedSequence([asn] + p[0].asns)] + p[1..]
    else [ConfedSequence([asn])] + p
  }

  function StripConfed(p: AsPath): AsPath {
    if p == [] then []
    else (if IsConfed(p[0]) then [] else [p[0]]) + StripConfed(p[1..])
  }

  ghost predicate NoConfed(p: AsPath) {
    forall seg :: seg in p ==> !IsConfed(seg)
  }

  ghost predicate SegmentsFit(p: AsPath) {
    forall seg :: seg in p ==> |seg.asns| <= MAX_SEGMENT
  }

  /** A prepend adds one hop, makes `asn` the neighbour and respects the 255 limit. */
  lemma PrependEffect(p: AsPath, asn: Asn)
    ensures PathLength(Prepend(p, asn)) == PathLength(p) + 1
    ensures NeighboringAs(Prepend(p, asn)) == Some(asn)
    ensures SegmentsFit(p) ==> SegmentsFit(Prepend(p, asn))
    ensures NoConfed(p) ==> NoConfed(Prepend(p, asn))
  {
    assert Prepend(p, asn)[1..] == p || (p != [] && Prepend(p, asn)[1..] == p[1..]);
  }

  /** The AS occurs somewhere in the path, in whatever kind of segment. */
  predicate Contains(p: AsPath, asn: Asn) {
    exists i :: 0 <= i < |p| && asn in p[i].asns
  }

  lemma PrependContains(p: AsPath, asn: Asn, x: Asn)
    ensures Contains(Prepend(p, asn), x) <==> x == asn || Contains(p, x)
  {
    var q := Prepend(p, asn);
    assert asn in q[0].asns;
    if Contains(p, x) {
      var i :| 0 <= i < |p| && x in p[i].asns;
      assert if |q| == |p| then x in q[i].asns else x in q[i + 1].asns;
    }
    if Contains(q, x) && x != asn {
      var i :| 0 <= i < |q| && x in q[i].asns;
      assert if |q| == |p| then x in p[i].asns else x in p[i - 1].asns;
    }
  }

  // ---------- the neighbouring AS ----------

  /** Some segment is a Sequence with an AS in it. */
  predicate HasSequence(p: AsPath) {
    exists i :: 0 <= i < |p| && p[i].Sequence? && p[i].asns != []
  }

  lemma HasSequenceTail(p: AsPath)
    requires p != []
    ensures HasSequence(p) <==> (p[0].Sequence? && p[0].asns != []) || HasSequence(p[1..])
  {
    if HasSequence(p) {
      var i :| 0 <= i < |p| && p[i].Sequence? && p[i].asns != [];
      if i > 0 { assert p[1..][i - 1].Sequence? && p[1..][i - 1].asns != []; }
    }
    if HasSequence(p[1..]) {
      var i :| 0 <= i < |p[1..]| && p[1..][i].Sequence? && p[1..][i].asns != [];
      assert p[i + 1].Sequence? && p[i + 1].asns != [];
    }
  }

  /** There is no neighbour exactly when no segment is a non-empty Sequence. */
  lemma {:induction false} NeighborNoneIff(p: AsPath)
    ensures NeighboringAs(p).None? <==> !HasSequence(p)
  {
    if p != [] {
      HasSequenceTail(p);
      NeighborNoneIff(p[1..]);
    }
  }

  /** What the documentation promises: nothing for an empty path or one that begins otherwise. */
  function DocumentedNeighbor(p: AsPath): Option<Asn> {
    if p == [] || !p[0].Sequence? || p[0].asns == [] then None else Some(p[0].asns[0])
  }

  /** The code keeps that promise exactly for paths that begin with a non-empty Sequence or have none at all. */
  lemma NeighborAsDocumentedIff(p: AsPath)
    ensures NeighboringAs(p) == DocumentedNeighbor(p)
       <==> !HasSequence(p) || (p[0].Sequence? && p[0].asns != [])
  {
    NeighborNoneIff(p);
  }

  /** A path that begins with a Set has a neighbour if a Sequence follows. */
  lemma SetIsSkipped(asns: seq<Asn>, x: Asn)
    ensures NeighboringAs([Set(asns), Sequence([x])]) == Some(x)
    ensures DocumentedNeighbor([Set(asns), Sequence([x])]) == None
  {
    assert [Set(asns), Sequence([x])][1..] == [Sequence([x])];
  }

  /** Confederation hops are invisible outside: nothing but the confed part changes. */
  lemma PrependConfedEffect(p: AsPath, asn: Asn)
    ensures PathLength(PrependConfed(p, asn)) == PathLength(p)
    ensures NeighboringAs(PrependConfed(p, asn)) == NeighboringAs(p)
    ensures StripConfed(PrependConfed(p, asn)) == StripConfed(p)
    ensures SegmentsFit(p) ==> SegmentsFit(PrependConfed(p, asn))
  {
    assert PrependConfed(p, asn)[1..] == p || (p != [] && PrependConfed(p, asn)[1..] == p[1..]);
  }

  /** Stripping removes every confed segment and nothing best-path selection reads. */
  lemma {:induction false} StripEffect(p: AsPath)
    ensures NoConfed(StripConfed(p))
    ensures PathLength(StripConfed(p)) == PathLength(p)
    ensures NeighboringAs(StripConfed(p)) == NeighboringAs(p)
    ensures NoConfed(p) <==> StripConfed(p) == p
    ensures SegmentsFit(p) ==> SegmentsFit(StripConfed(p))
  {
    if p != [] {
      StripEffect(p[1..]);
      var rest := StripConfed(p[1..]);
      StripShortens(p[1..]);
      assert p == [p[0]] + p[1..];
      if IsConfed(p[0]) {
        assert StripConfed(p) == rest;
        assert p[0] in p;
      } else {
        assert StripConfed(p)[1..] == rest;
      }
    }
  }

  lemma {:induction false} StripShortens(p: AsPath)
    ensures |StripConfed(p)| <= |p|
  {
    if p != [] { StripShortens(p[1..]); }
  }

  /**
   Why an external export strips before it prepends: the two orders give the same
   path unless a leading confed segment hides a Sequence the prepend would extend.
   */
  lemma StripPrependCommute(p: AsPath, asn: Asn)
    ensures StripConfed(Prepend(p, asn)) == Prepend(StripConfed(p), asn)
       <==> !(p != [] && IsConfed(p[0])
              && StripConfed(p) != [] && StripConfed(p)[0].Sequence?
              && |StripConfed(p)[0].asns| < MAX_SEGMENT)
  {
    var direct, q := Prepend(p, asn), StripConfed(p);
    if p != [] && p[0].Sequence? && |p[0].asns| < MAX_SEGMENT {
      assert direct[1..] == p[1..];
      assert q == [p[0]] + StripConfed(p[1..]);
      assert q[1..] == StripConfed(p[1..]);
    } else {
      assert direct[1..] == p;
      assert StripConfed(direct) == [Sequence([asn])] + q;
      if p != [] && !IsConfed(p[0]) {
        assert q[0] == p[0];
      }
      if q != [] && q[0].Sequence? && |q[0].asns| < MAX_SEGMENT {
        assert |Prepend(q, asn)| == |q|;
      }
    }
  }
}
