/** A model of the state logic of the ParentSize component: the four-field
    measurement it keeps, the rule that decides whether a newly observed
    measurement replaces the committed one, the normalisation of the
    ignored-dimension option and the merge of default and caller styles.

    Field values are integers. The component compares JavaScript numbers with
    strict inequality, so a NaN field would always count as "changed"; that
    case, and fields left undefined by a missing content rectangle, are not
    part of this model. */
module ParentSize {

  datatype Option<T> = None | Some(value: T)

  /** The names of the measurement's fields (the keys of the state record). */
  datatype Field = Width | Height | Top | Left

  /** The committed (or newly observed) measurement of the parent box. */
  datatype State = State(width: int, height: int, top: int, left: int)

  /** The value of one field of a measurement (`existing[key]`). */
  function Get(s: State, f: Field): int
  {
    match f
    case Width => s.width
    case Height => s.height
    case Top => s.top
    case Left => s.left
  }

  /** The keys of a state record, in the order the record is built. */
  const STATE_KEYS: seq<Field> := [Width, Height, Top, Left]

  /** The state the component starts in. */
  const ZERO: State := State(0, 0, 0, 0)

  lemma StateKeysComplete(f: Field)
    ensures f in STATE_KEYS
  {
  }

  /** Two measurements are equal exactly when they agree on every field. */
  lemma StateExtensional(a: State, b: State)
    requires forall f :: Get(a, f) == Get(b, f)
    ensures a == b
  {
    assert Get(a, Width) == Get(b, Width);
    assert Get(a, Height) == Get(b, Height);
    assert Get(a, Top) == Get(b, Top);
    assert Get(a, Left) == Get(b, Left);
  }

  // ---------------------------------------------------------------------------
  // Ignore-dimension option
  // ---------------------------------------------------------------------------

  /** The `ignoreDimensions` option: one field name or a list of them. */
  datatype IgnoreDimensions = One(field: Field) | Many(fields: seq<Field>)

  /** The value used when the caller gives no `ignoreDimensions`. */
  const DEFAULT_IGNORE_DIMENSIONS: IgnoreDimensions := Many([])

  /** The option the component works with: the caller's, or the default
      empty list when the caller gives none. The promise of a default
      parameter is exactly this case split; `DefaultIgnoresNothing` states
      what the default means. */
  function IgnoreOrDefault(given: Option<IgnoreDimensions>): (d: IgnoreDimensions)
    ensures given.None? ==> d == Many([])
    ensures given.Some? ==> d == given.value
  {
    match given
    case None => DEFAULT_IGNORE_DIMENSIONS
    case Some(d) => d
  }

  /** The option as a list: a single name becomes a one-element list and a
      list is passed through unchanged. */
  function Normalize(d: IgnoreDimensions): (list: seq<Field>)
    ensures d.One? ==> list == [d.field]
    ensures d.Many? ==> list == d.fields
    ensures forall f :: f in list <==> (if d.One? then f == d.field else f in d.fields)
  {
    match d
    case One(f) => [f]
    case Many(fs) => fs
  }

  /** Without an option nothing is ignored. */
  lemma DefaultIgnoresNothing(f: Field)
    ensures f !in Normalize(IgnoreOrDefault(None))
  {
  }

  // ---------------------------------------------------------------------------
  // The size-update rule
  // ---------------------------------------------------------------------------

  /** Field `f` differs between the two measurements (`existing[key] !== incoming[key]`). */
  predicate Differs(existing: State, incoming: State, f: Field): (changed: bool)
    ensures existing == incoming ==> !changed
  {
    Get(existing, f) != Get(incoming, f)
  }

  /** Reference definition of the bail-out decision: every field that differs
      is named in the ignore list (vacuously true when no field differs). */
  ghost predicate Bails(existing: State, incoming: State, normalized: seq<Field>)
  {
    forall f :: Differs(existing, incoming, f) ==> f in normalized
  }

  /** The keys among `keys` whose values differ, in their order (the `filter`). */
  function Changed(keys: seq<Field>, existing: State, incoming: State): (r: seq<Field>)
    ensures |r| <= |keys|
    ensures forall f :: f in r <==> f in keys && Differs(existing, incoming, f)
  {
    if keys == [] then []
    else
      var rest := Changed(keys[1..], existing, incoming);
      assert forall f :: f in keys <==> f == keys[0] || f in keys[1..];
      if Differs(existing, incoming, keys[0]) then [keys[0]] + rest else rest
  }

  /** Every key of `keys` is included in `list` (the `every` over `includes`). */
  function AllIncluded(keys: seq<Field>, list: seq<Field>): (b: bool)
    ensures b <==> forall f :: f in keys ==> f in list
  {
    if keys == [] then true
    else
      assert forall f :: f in keys <==> f == keys[0] || f in keys[1..];
      keys[0] in list && AllIncluded(keys[1..], list)
  }

  /** The fields whose values changed, over all keys of the state record. */
  function KeysWithChanges(existing: State, incoming: State): (r: seq<Field>)
    ensures forall f :: f in r <==> Differs(existing, incoming, f)
    ensures r == [] <==> existing == incoming
  {
    ChangedOverStateKeys(existing, incoming);
    Changed(STATE_KEYS, existing, incoming)
  }

  /** Filtering all keys of the record finds exactly the differing fields,
      and none exactly when the two measurements are equal. */
  lemma ChangedOverStateKeys(existing: State, incoming: State)
    ensures forall f :: f in Changed(STATE_KEYS, existing, incoming) <==> Differs(existing, incoming, f)
    ensures Changed(STATE_KEYS, existing, incoming) == [] <==> existing == incoming
  {
    var r := Changed(STATE_KEYS, existing, incoming);
    forall f ensures f in r <==> Differs(existing, incoming, f) {
      StateKeysComplete(f);
    }
    if existing != incoming && r == [] {
      forall f ensures Get(existing, f) == Get(incoming, f) {
        assert f !in r;
      }
      StateExtensional(existing, incoming);
    }
    if r != [] {
      assert Differs(existing, incoming, r[0]);
    }
  }

  /** The `setState` reducer: keep `existing` when every changed field is
      ignored, otherwise commit the whole of `incoming`. */
  function Reduce(existing: State, incoming: State, normalized: seq<Field>): (r: State)
    ensures r == existing || r == incoming
    ensures Bails(existing, incoming, normalized) ==> r == existing
    ensures !Bails(existing, incoming, normalized) ==> r == incoming
    ensures forall f :: f !in normalized ==> Get(r, f) == Get(incoming, f)
    ensures normalized == [] ==> r == incoming
  {
    var keysWithChanges := KeysWithChanges(existing, incoming);
    var shouldBail := AllIncluded(keysWithChanges, normalized);
    if shouldBail then existing else incoming
  }

  /** An update that changes the state names a changed field outside the list,
      and then every ignored field takes its incoming value as well. */
  lemma CommitIsWhole(existing: State, incoming: State, normalized: seq<Field>)
    requires Reduce(existing, incoming, normalized) != existing
    ensures exists f :: Differs(existing, incoming, f) && f !in normalized
    ensures forall f :: f in normalized ==> Get(Reduce(existing, incoming, normalized), f) == Get(incoming, f)
  {
  }

  /** Applying the same measurement twice leaves the state of applying it once. */
  lemma ReduceIdempotent(existing: State, incoming: State, normalized: seq<Field>)
    ensures Reduce(Reduce(existing, incoming, normalized), incoming, normalized)
         == Reduce(existing, incoming, normalized)
  {
  }

  // ---------------------------------------------------------------------------
  // Sequences of commits
  // ---------------------------------------------------------------------------

  /** One commit: the measurement passed to the reducer and the ignore list
      the reducer was built with at that moment. */
  datatype Commit = Commit(incoming: State, normalized: seq<Field>)

  /** The state after applying `commits` one after another from `init`. */
  function Replay(init: State, commits: seq<Commit>): State
    decreases |commits|
  {
    if commits == [] then init
    else
      var last := commits[|commits| - 1];
      Reduce(Replay(init, commits[..|commits| - 1]), last.incoming, last.normalized)
  }

  /** After any non-empty sequence of commits, every field outside the ignore
      list of the latest commit holds that field of the latest measurement,
      whatever lists the earlier commits used. */
  lemma ReplayAgreesWithLast(init: State, commits: seq<Commit>)
    requires commits != []
    ensures forall f :: f !in commits[|commits| - 1].normalized ==>
      Get(Replay(init, commits), f) == Get(commits[|commits| - 1].incoming, f)
  {
  }

  /** The state after any sequence of commits is the initial state or exactly
      one of the measurements committed, never a mix of several. */
  lemma {:induction false} ReplayIsSomeUpdate(init: State, commits: seq<Commit>)
    ensures Replay(init, commits) == init
         || exists i :: 0 <= i < |commits| && Replay(init, commits) == commits[i].incoming
  {
    if commits != [] {
      var prefix := commits[..|commits| - 1];
      ReplayIsSomeUpdate(init, prefix);
      assert forall i :: 0 <= i < |prefix| ==> prefix[i] == commits[i];
    }
  }

  /** When the latest commit ignores nothing, the state is its measurement. */
  lemma EmptyIgnoreReplayIsLast(init: State, commits: seq<Commit>)
    requires commits != [] && commits[|commits| - 1].normalized == []
    ensures Replay(init, commits) == commits[|commits| - 1].incoming
  {
  }

  // ---------------------------------------------------------------------------
  // The component's committed state
  // ---------------------------------------------------------------------------

  /** The state cell of one mounted component and the ignore list its current
      reducer was built with. Each call of `Resize` is one debounced commit; a
      new `ignoreDimensions` option rebuilds the reducer with a new list and
      keeps the committed state. */
  class Component {
    var normalized: seq<Field>
    var state: State
    /** Every commit made through `Resize`, oldest first. */
    ghost var commits: seq<Commit>

    ghost predicate Valid()
      reads this
    {
      && state == Replay(ZERO, commits)
      && (commits != [] ==>
            var last := commits[|commits| - 1];
            forall f :: f !in last.normalized ==> Get(state, f) == Get(last.incoming, f))
    }

    constructor (ignoreDimensions: Option<IgnoreDimensions>)
      ensures Valid()
      ensures normalized == Normalize(IgnoreOrDefault(ignoreDimensions))
      ensures state == ZERO && commits == []
    {
      normalized := Normalize(IgnoreOrDefault(ignoreDimensions));
      state := ZERO;
      commits := [];
    }

    /** A new `ignoreDimensions` option on a mounted component. */
    method SetIgnoreDimensions(ignoreDimensions: Option<IgnoreDimensions>)
      requires Valid()
      modifies this
      ensures Valid()
      ensures normalized == Normalize(IgnoreOrDefault(ignoreDimensions))
      ensures state == old(state) && commits == old(commits)
    {
      normalized := Normalize(IgnoreOrDefault(ignoreDimensions));
    }

    method Resize(incoming: State)
      requires Valid()
      modifies this
      ensures Valid()
      ensures normalized == old(normalized)
      ensures commits == old(commits) + [Commit(incoming, normalized)]
      ensures state == Reduce(old(state), incoming, normalized)
      ensures state == old(state) || state == incoming
      ensures Bails(old(state), incoming, normalized) ==> state == old(state)
      ensures forall f :: f !in normalized ==> Get(state, f) == Get(incoming, f)
    {
      state := Reduce(state, incoming, normalized);
      commits := commits + [Commit(incoming, normalized)];
    }
  }

  // ---------------------------------------------------------------------------
  // Styles of the wrapping element
  // ---------------------------------------------------------------------------

  /** A style value: a CSS string, or a number (a length in pixels). */
  datatype StyleValue = Text(text: string) | Number(number: int)

  /** The styles applied when the caller overrides nothing. */
  const DEFAULT_PARENT_SIZE_STYLES: map<string, StyleValue> :=
    map["width" := Text("100%"), "height" := Text("100%")]

  /** `{ ...defaults, ...overrides }`: the caller's keys win. */
  function MergeStyles(overrides: Option<map<string, StyleValue>>): (style: map<string, StyleValue>)
    ensures overrides.None? ==> style == DEFAULT_PARENT_SIZE_STYLES
    ensures overrides.Some? ==> style.Keys == DEFAULT_PARENT_SIZE_STYLES.Keys + overrides.value.Keys
    ensures overrides.Some? ==> forall k :: k in overrides.value ==> style[k] == overrides.value[k]
    ensures "width" in style && "height" in style
    ensures (overrides.None? || "width" !in overrides.value) ==> style["width"] == Text("100%")
    ensures (overrides.None? || "height" !in overrides.value) ==> style["height"] == Text("100%")
  {
    match overrides
    case None => DEFAULT_PARENT_SIZE_STYLES
    case Some(o) => DEFAULT_PARENT_SIZE_STYLES + o
  }

  // ---------------------------------------------------------------------------
  // Scenarios
  // ---------------------------------------------------------------------------

  /** From the zero state a new measurement of 200 by 100 is committed. */
  lemma FirstMeasurementCommitted()
    ensures Replay(ZERO, [Commit(State(200, 100, 0, 0), [])]) == State(200, 100, 0, 0)
  {
  }

  /** Ignoring `top` and `left`: a move alone is dropped, a move together with
      a new width is committed whole. */
  lemma IgnoreOffsetsScenario(existing: State, top: int, left: int, width: int)
    requires width != existing.width
    ensures Reduce(existing, existing.(top := top, left := left), [Top, Left]) == existing
    ensures Reduce(existing, existing.(top := top, left := left, width := width), [Top, Left])
         == existing.(top := top, left := left, width := width)
  {
  }

  /** A caller width of 50% replaces the default width and keeps the height. */
  lemma HalfWidthOverride()
    ensures MergeStyles(Some(map["width" := Text("50%")]))
         == map["width" := Text("50%"), "height" := Text("100%")]
  {
  }
}
