/**
 * One level of the parser. The text is cut at the matches of one tag; each match names an
 * entry of a case-insensitive dictionary, and the text that belongs to the match (its span) is
 * folded into that entry. Namespaces and classes start a missing entry empty and fold every
 * span with the same name into it; queries overwrite their entry with the last span.
 */
module TagLevels {
  import opened Wrappers
  import opened Text
  import opened CaseDict
  import opened TagRegex

  /** A tag's captured name and the span that follows it. */
  datatype Segment = Segment(name: string, body: string)

  /** The segments of `text` for `keyword`, one per match, in order. */
  function Segments(text: string, keyword: string): (segs: seq<Segment>)
    ensures |segs| == |Matches(text, keyword)|
  {
    MatchesOrdered(text, keyword);
    var ms := Matches(text, keyword);
    seq(|ms|, i requires 0 <= i < |ms| => Segment(ms[i].name, Span(text, ms, i)))
  }

  /**
   * Folding the segments into `d` in order: the entry the segment names gets
   * `step(body, current value)`, where a missing entry starts as `start`.
   */
  function Absorb<V>(d: Dict<V>, segs: seq<Segment>, step: (string, V) -> V, start: V): Dict<V>
  {
    if segs == [] then d
    else
      var prev := Absorb(d, segs[..|segs| - 1], step, start);
      var s := segs[|segs| - 1];
      Put(prev, s.name, step(s.body, Get(prev, s.name).GetOr(start)))
  }

  /**
   * Segment `i` is the name of match `i` and the text from the match's end (its index plus its
   * length) to the index of the next match, or to the end of the text after the last match.
   */
  lemma SegmentAt(text: string, keyword: string, i: nat)
    requires i < |Matches(text, keyword)|
    ensures var ms := Matches(text, keyword);
      var start, end := ms[i].index + ms[i].length, if i < |ms| - 1 then ms[i + 1].index else |text|;
      && start <= end <= |text|
      && Segments(text, keyword)[i].name == ms[i].name
      && Segments(text, keyword)[i].body == text[start..end]
  {
    MatchesOrdered(text, keyword);
  }

  /** Absorbing one more segment is one more `Put`. */
  lemma AbsorbSnoc<V>(d: Dict<V>, segs: seq<Segment>, i: nat, step: (string, V) -> V, start: V)
    requires i < |segs|
    ensures var prev := Absorb(d, segs[..i], step, start);
      Absorb(d, segs[..i + 1], step, start) == Put(prev, segs[i].name, step(segs[i].body, Get(prev, segs[i].name).GetOr(start)))
  {
    assert segs[..i + 1][..i] == segs[..i];
  }

  /**
   * One get-or-create step: when the entry is missing it is first stored as `start`, then the
   * folded value is stored over it; the result is the same as one `Put` of the folded value.
   */
  lemma AbsorbGetOrCreate<V>(d: Dict<V>, segs: seq<Segment>, i: nat, step: (string, V) -> V, start: V,
                             prev: Dict<V>, current: Dict<V>, v: V)
    requires i < |segs|
    requires prev == Absorb(d, segs[..i], step, start)
    requires current == if Get(prev, segs[i].name).None? then Put(prev, segs[i].name, start) else prev
    requires v == step(segs[i].body, Get(prev, segs[i].name).GetOr(start))
    ensures Put(current, segs[i].name, v) == Absorb(d, segs[..i + 1], step, start)
  {
    AbsorbSnoc(d, segs, i, step, start);
    if Get(prev, segs[i].name).None? {
      PutPut(prev, segs[i].name, start, v);
    }
  }

  lemma AbsorbAll<V>(d: Dict<V>, segs: seq<Segment>, step: (string, V) -> V, start: V)
    ensures Absorb(d, segs[..|segs|], step, start) == Absorb(d, segs, step, start)
  {
    assert segs[..|segs|] == segs;
  }

  /** The bodies of the segments whose name equals `key` ignoring case, in order. */
  function Named(segs: seq<Segment>, key: string): (bodies: seq<string>)
    ensures |bodies| <= |segs|
  {
    if segs == [] then []
    else
      var s := segs[|segs| - 1];
      Named(segs[..|segs| - 1], key) + if Fold(s.name) == Fold(key) then [s.body] else []
  }

  /** `step` applied to each body in order, starting from `v`. */
  function FoldBodies<V>(bodies: seq<string>, step: (string, V) -> V, v: V): V
  {
    if bodies == [] then v else step(bodies[|bodies| - 1], FoldBodies(bodies[..|bodies| - 1], step, v))
  }

  /** The names of the segments, folded. */
  function Names(segs: seq<Segment>): set<string>
  {
    if segs == [] then {} else Names(segs[..|segs| - 1]) + {Fold(segs[|segs| - 1].name)}
  }

  /**
   * After absorbing, an entry is what it was if no segment names it; otherwise it is its old
   * value (or `start`) with every body of the segments that name it folded in, in order.
   */
  lemma {:induction false} AbsorbGet<V>(d: Dict<V>, segs: seq<Segment>, step: (string, V) -> V, start: V, key: string)
    ensures Get(Absorb(d, segs, step, start), key) ==
              if Named(segs, key) == [] then Get(d, key)
              else Some(FoldBodies(Named(segs, key), step, Get(d, key).GetOr(start)))
    decreases |segs|
  {
    if segs != [] {
      var init, s := segs[..|segs| - 1], segs[|segs| - 1];
      var prev := Absorb(d, init, step, start);
      var v := step(s.body, Get(prev, s.name).GetOr(start));
      AbsorbGet(d, init, step, start, key);
      GetPut(prev, s.name, v, key);
      if Fold(key) == Fold(s.name) {
        GetFolded(prev, s.name, key);
        var named := Named(init, key);
        assert Named(segs, key) == named + [s.body];
        assert (named + [s.body])[..|named|] == named;
      } else {
        assert Named(segs, key) == Named(init, key);
      }
    }
  }

  /** Absorbing adds the segments' names to the keys, and keeps them distinct ignoring case. */
  lemma {:induction false} AbsorbKeys<V>(d: Dict<V>, segs: seq<Segment>, step: (string, V) -> V, start: V)
    ensures FoldedKeys(Absorb(d, segs, step, start)) == FoldedKeys(d) + Names(segs)
    ensures UniqueKeys(d) ==> UniqueKeys(Absorb(d, segs, step, start))
    decreases |segs|
  {
    if segs != [] {
      var init, s := segs[..|segs| - 1], segs[|segs| - 1];
      var prev := Absorb(d, init, step, start);
      AbsorbKeys(d, init, step, start);
      PutKeys(prev, s.name, step(s.body, Get(prev, s.name).GetOr(start)));
    }
  }

  /** A property that `start` has and `step` keeps holds of every value after absorbing. */
  lemma {:induction false} AbsorbValues<V>(d: Dict<V>, segs: seq<Segment>, step: (string, V) -> V, start: V, P: V -> bool)
    requires P(start)
    requires forall i :: 0 <= i < |d| ==> P(d[i].value)
    requires forall b, v :: P(v) ==> P(step(b, v))
    ensures forall i :: 0 <= i < |Absorb(d, segs, step, start)| ==> P(Absorb(d, segs, step, start)[i].value)
    decreases |segs|
  {
    if segs != [] {
      var init, s := segs[..|segs| - 1], segs[|segs| - 1];
      var prev := Absorb(d, init, step, start);
      AbsorbValues(d, init, step, start, P);
      var current := Get(prev, s.name).GetOr(start);
      assert P(current) by {
        match Find(prev, s.name)
        case None =>
        case Some(j) =>
      }
    }
  }

  /** The names, folded, of the `keyword` tags in each of `bodies`. */
  function TagNames(bodies: seq<string>, keyword: string): set<string>
  {
    if bodies == [] then {} else TagNames(bodies[..|bodies| - 1], keyword) + Names(Segments(bodies[|bodies| - 1], keyword))
  }

  /**
   * Folding several bodies into one entry with a step that adds the names of a body's
   * `keyword` tags to the keys (and removes none) adds the names of all of them.
   */
  lemma {:induction false} FoldBodiesKeys<V>(bodies: seq<string>, step: (string, Dict<V>) -> Dict<V>, keyword: string, v: Dict<V>)
    requires forall b, w :: FoldedKeys(step(b, w)) == FoldedKeys(w) + Names(Segments(b, keyword))
    ensures FoldedKeys(FoldBodies(bodies, step, v)) == FoldedKeys(v) + TagNames(bodies, keyword)
    decreases |bodies|
  {
    if bodies != [] {
      var init, b := bodies[..|bodies| - 1], bodies[|bodies| - 1];
      FoldBodiesKeys(init, step, keyword, v);
      var w := FoldBodies(init, step, v);
      assert FoldedKeys(step(b, w)) == FoldedKeys(w) + Names(Segments(b, keyword));
    }
  }
}
