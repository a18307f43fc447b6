/** The overlay rectangles of the interactive placer (`DragRect` items) and the
    list operations the viewer performs on them. */
module Overlays {

  /** The three tags the main window gives its rectangles. */
  datatype Tag = Initials | Signature | Other

  /** One `DragRect`: its tag, the page index it was created on, its local
      rectangle (x, y, w, h) in scene pixels, the offset (dx, dy) it has been
      dragged by, and whether it is currently shown. */
  datatype Overlay = Overlay(tag: Tag, page: nat, x: real, y: real, w: real, h: real,
                             dx: real, dy: real, visible: bool)
  {
    /** Left edge of `rect().translated(pos())`, the rectangle in scene coordinates. */
    function SceneX(): real { x + dx }
    /** Top edge of `rect().translated(pos())`. */
    function SceneY(): real { y + dy }
  }

  /** `[r for r in rects if r.tag == t]`. */
  function Tagged(rs: seq<Overlay>, t: Tag): (r: seq<Overlay>)
    ensures |r| <= |rs|
    ensures forall k :: 0 <= k < |r| ==> r[k].tag == t
  {
    if rs == [] then [] else (if rs[0].tag == t then [rs[0]] else []) + Tagged(rs[1..], t)
  }

  /** The rectangles whose tag is not `t`, in their original order. */
  function Without(rs: seq<Overlay>, t: Tag): (r: seq<Overlay>)
    ensures forall k :: 0 <= k < |r| ==> r[k].tag != t
  {
    if rs == [] then [] else (if rs[0].tag != t then [rs[0]] else []) + Without(rs[1..], t)
  }

  /** Python's `list.remove(x)`: drop the first element equal to `x`; a list
      without `x` is returned as it is (the source catches the ValueError). */
  function RemoveFirst(rs: seq<Overlay>, x: Overlay): (r: seq<Overlay>)
    ensures x in rs ==> |r| == |rs| - 1
    ensures x !in rs ==> r == rs
  {
    if rs == [] then []
    else if rs[0] == x then rs[1..]
    else [rs[0]] + RemoveFirst(rs[1..], x)
  }

  /** `a` is a subsequence of `b`: `b` with some elements dropped, order kept. */
  predicate Subsequence(a: seq<Overlay>, b: seq<Overlay>)
    decreases |b|
  {
    if a == [] then true
    else if b == [] then false
    else (a[0] == b[0] && Subsequence(a[1..], b[1..])) || Subsequence(a, b[1..])
  }

  lemma {:induction false} TaggedAppend(a: seq<Overlay>, b: seq<Overlay>, t: Tag)
    ensures Tagged(a + b, t) == Tagged(a, t) + Tagged(b, t)
  {
    if a != [] {
      assert (a + b)[1..] == a[1..] + b;
      TaggedAppend(a[1..], b, t);
    } else {
      assert a + b == b;
    }
  }

  /** Every rectangle is either tagged `t` or kept by Without: nothing is lost or duplicated. */
  lemma {:induction false} TaggedWithoutPartition(rs: seq<Overlay>, t: Tag)
    ensures |Tagged(rs, t)| + |Without(rs, t)| == |rs|
  {
    if rs != [] {
      TaggedWithoutPartition(rs[1..], t);
    }
  }

  /** Removing tag `t` keeps the remaining rectangles in their original relative order. */
  lemma {:induction false} WithoutIsSubsequence(rs: seq<Overlay>, t: Tag)
    ensures Subsequence(Without(rs, t), rs)
  {
    if rs != [] {
      WithoutIsSubsequence(rs[1..], t);
      var rest := Without(rs[1..], t);
      if rs[0].tag != t {
        assert Without(rs, t) == [rs[0]] + rest;
        assert ([rs[0]] + rest)[1..] == rest;
      } else {
        assert Without(rs, t) == rest;
        SubsequenceDropHead(rest, rs);
      }
    }
  }

  /** A subsequence of the tail is a subsequence of the whole list. */
  lemma {:induction false} SubsequenceDropHead(a: seq<Overlay>, b: seq<Overlay>)
    requires b != [] && Subsequence(a, b[1..])
    ensures Subsequence(a, b)
  {
  }

  /** Removing tag `t` does not disturb any other tag: each other tag's
      rectangles are exactly the ones before, in the same order. */
  lemma {:induction false} WithoutKeepsOtherTags(rs: seq<Overlay>, t: Tag, u: Tag)
    requires u != t
    ensures Tagged(Without(rs, t), u) == Tagged(rs, u)
  {
    if rs != [] {
      WithoutKeepsOtherTags(rs[1..], t, u);
      var head := if rs[0].tag != t then [rs[0]] else [];
      TaggedAppend(head, Without(rs[1..], t), u);
    }
  }

  /** A list with no rectangle tagged `t` is its own Without. */
  lemma {:induction false} WithoutNoTagged(rs: seq<Overlay>, t: Tag)
    requires Tagged(rs, t) == []
    ensures Without(rs, t) == rs
  {
    if rs != [] {
      assert rs[0].tag != t;
      WithoutNoTagged(rs[1..], t);
      assert rs == [rs[0]] + rs[1..];
    }
  }

  /** One step of the removal loop: when `x` is the first rectangle tagged `t`,
      `list.remove(x)` takes exactly it away, so the rest tagged `t` are still
      there in order and the rectangles of other tags are untouched. */
  lemma {:induction false} RemoveFirstTagged(rs: seq<Overlay>, t: Tag, x: Overlay, more: seq<Overlay>)
    requires Tagged(rs, t) == [x] + more
    ensures Tagged(RemoveFirst(rs, x), t) == more
    ensures Without(RemoveFirst(rs, x), t) == Without(rs, t)
  {
    assert rs != [];
    assert Tagged(rs, t)[0] == x;
    if rs[0] == x {
      assert x.tag == t;
      assert Tagged(rs, t) == [x] + Tagged(rs[1..], t);
      assert Tagged(rs[1..], t) == Tagged(rs, t)[1..] == more;
      assert RemoveFirst(rs, x) == rs[1..];
    } else {
      assert rs[0].tag != t;
      assert Tagged(rs, t) == Tagged(rs[1..], t);
      RemoveFirstTagged(rs[1..], t, x, more);
      var r := RemoveFirst(rs, x);
      assert r == [rs[0]] + RemoveFirst(rs[1..], x);
      assert r[1..] == RemoveFirst(rs[1..], x);
    }
  }

  /** The removal loop of `remove_rects_by_tag`: collect the rectangles with
      the tag, then `list.remove` each of them in turn. What is left is the
      list without that tag, in its original order. */
  method RemoveAllTagged(rs: seq<Overlay>, tag: Tag) returns (kept: seq<Overlay>)
    ensures kept == Without(rs, tag)
  {
    kept := rs;
    var pending := Tagged(kept, tag);  // `to_remove`, less the ones already removed
    while pending != []
      invariant Tagged(kept, tag) == pending
      invariant Without(kept, tag) == Without(rs, tag)
      decreases |pending|
    {
      var r := pending[0];
      assert pending == [r] + pending[1..];
      RemoveFirstTagged(kept, tag, r, pending[1..]);
      kept := RemoveFirst(kept, r);
      pending := pending[1..];
    }
    WithoutNoTagged(kept, tag);
  }

  /** The visibility rule: a signature rectangle is shown only on the page it
      was created on; every other rectangle is always shown. */
  predicate ShownOn(o: Overlay, current: nat) {
    o.tag != Signature || o.page == current
  }

  /** The rectangles after the visibility loop of `show_page(current)`: each
      one's visibility set by the rule, nothing else about it changed. */
  function Restyle(rs: seq<Overlay>, current: nat): (r: seq<Overlay>)
    ensures |r| == |rs|
    ensures forall k :: 0 <= k < |r| ==> (r[k].visible <==> rs[k].tag != Signature || rs[k].page == current)
    ensures forall k :: 0 <= k < |r| ==> r[k].(visible := rs[k].visible) == rs[k]
  {
    seq(|rs|, k requires 0 <= k < |rs| => rs[k].(visible := ShownOn(rs[k], current)))
  }
}
