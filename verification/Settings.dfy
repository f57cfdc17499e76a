/** The validator of JSON-compatible settings: a recursive walk over a heap that may share containers and may be
    cyclic, with a set of the containers being visited and a limit on the nesting depth. */
module Settings {
  import opened Wrappers

  const MAXIMUM_DEPTH := 128

  datatype ContainerKind = MapKind | SliceKind | PointerKind

  /** What identifies a container: two slices of one array with different lengths are two containers. */
  datatype Visit = Visit(kind: ContainerKind, typeKey: int, pointer: int, length: int, capacity: int)

  datatype Field = Field(jsonDash: bool, exported: bool, anonymous: bool, embedsStruct: bool, value: Value)

  /** A reflected value. Maps, slices and pointers refer to the heap (None is nil); the rest is held in place. */
  datatype Value =
    | Invalid
    | Scalar
    | Float(finite: bool)
    | Interface(elem: Option<Value>)
    | Map(stringKeys: bool, ref: Option<Visit>)
    | Slice(ref: Option<Visit>)
    | Array(elems: seq<Value>)
    | Pointer(ref: Option<Visit>)
    | Struct(fields: seq<Field>)
    | Unsupported

  /** What each container holds: the values of a map in iteration order, the elements of a slice, the one value
      behind a pointer. */
  type Heap = map<Visit, seq<Value>>

  function Contents(h: Heap, visit: Visit): seq<Value> { if visit in h then h[visit] else [] }

  predicate Visible(field: Field) {
    !field.jsonDash && (field.exported || (field.anonymous && field.embedsStruct))
  }

  function VisibleValues(fields: seq<Field>): (values: seq<Value>)
    ensures forall v :: v in values <==> exists i :: 0 <= i < |fields| && Visible(fields[i]) && fields[i].value == v
  {
    if fields == [] then []
    else
      var last := fields[|fields| - 1];
      assert forall i :: 0 <= i < |fields| - 1 ==> fields[..|fields| - 1][i] == fields[i];
      VisibleValues(fields[..|fields| - 1]) + if Visible(last) then [last.value] else []
  }

  /** Interfaces add no nesting. */
  function Strip(v: Value): Value {
    if v.Interface? && v.elem.Some? then Strip(v.elem.value) else v
  }

  predicate Supported(v: Value) {
    && !v.Unsupported?
    && (v.Float? ==> v.finite)
    && (v.Map? ==> v.stringKeys)
  }

  function Ref(v: Value): Option<Visit> {
    match v
    case Map(_, ref) => ref
    case Slice(ref) => ref
    case Pointer(ref) => ref
    case _ => None
  }

  /** The values one level deeper. */
  function Children(h: Heap, v: Value): seq<Value> {
    match v
    case Array(elems) => elems
    case Struct(fields) => VisibleValues(fields)
    case _ => if Ref(v).Some? then Contents(h, Ref(v).value) else []
  }

  // ------------------------------------------------------------------------------------------ the verdict

  /** The unfolding of a value: its containers followed for ever, as a tree if that ends. */
  datatype Tree = Tree(children: seq<Tree>)

  predicate Unfolds(h: Heap, v: Value, tree: Tree)
    decreases tree
  {
    var children := Children(h, Strip(v));
    && Supported(Strip(v))
    && |tree.children| == |children|
    && forall i :: 0 <= i < |children| ==> Unfolds(h, children[i], tree.children[i])
  }

  predicate HeightAtMost(tree: Tree, n: int) {
    0 <= n && forall i :: 0 <= i < |tree.children| ==> HeightAtMost(tree.children[i], n - 1)
  }

  /** The unfolding of the value is a finite tree of supported values, nested at most `n` deep. */
  ghost predicate FiniteWithin(h: Heap, v: Value, n: int) {
    exists tree :: Unfolds(h, v, tree) && HeightAtMost(tree, n)
  }

  /** The verdict that the depth limit alone would give. */
  predicate Fits(h: Heap, v: Value, n: int)
    decreases n + 1
  {
    && 0 <= n
    && Supported(Strip(v))
    && forall c :: c in Children(h, Strip(v)) ==> Fits(h, c, n - 1)
  }

  function TreeOf(h: Heap, v: Value, n: int): (tree: Tree)
    requires Fits(h, v, n)
    ensures Unfolds(h, v, tree) && HeightAtMost(tree, n)
    decreases n + 1
  {
    var children := Children(h, Strip(v));
    assert forall i :: 0 <= i < |children| ==> children[i] in children;
    Tree(seq(|children|, i requires 0 <= i < |children| => TreeOf(h, children[i], n - 1)))
  }

  lemma {:induction false} TreeFits(h: Heap, v: Value, tree: Tree, n: int)
    requires Unfolds(h, v, tree) && HeightAtMost(tree, n)
    ensures Fits(h, v, n)
    decreases n + 1
  {
    var children := Children(h, Strip(v));
    forall c | c in children ensures Fits(h, c, n - 1) {
      var i :| 0 <= i < |children| && children[i] == c;
      TreeFits(h, c, tree.children[i], n - 1);
    }
  }

  lemma FitsIffFinite(h: Heap, v: Value, n: int)
    ensures Fits(h, v, n) <==> FiniteWithin(h, v, n)
  {
    if Fits(h, v, n) {
      var tree := TreeOf(h, v, n);
      assert Unfolds(h, v, tree);
    }
    if FiniteWithin(h, v, n) {
      var tree :| Unfolds(h, v, tree) && HeightAtMost(tree, n);
      TreeFits(h, v, tree, n);
    }
  }

  // ------------------------------------------------------------------------------------------ cycles

  /** `v` lies exactly `level` levels below `u`. */
  ghost predicate Below(h: Heap, u: Value, v: Value, level: nat)
    decreases level
  {
    if level == 0 then Strip(u) == Strip(v)
    else exists c :: c in Children(h, Strip(u)) && Below(h, c, v, level - 1)
  }

  /** One level more from a parent than from its child. */
  lemma BelowUnder(h: Heap, u: Value, c: Value, v: Value, level: nat)
    requires c in Children(h, Strip(u)) && Below(h, c, v, level)
    ensures Below(h, u, v, level + 1)
  {
  }

  lemma BelowSplits(h: Heap, u: Value, v: Value, level: nat) returns (c: Value)
    requires Below(h, u, v, level + 1)
    ensures c in Children(h, Strip(u)) && Below(h, c, v, level)
  {
    c :| c in Children(h, Strip(u)) && Below(h, c, v, level);
  }

  lemma {:induction false} BelowStep(h: Heap, u: Value, v: Value, c: Value, level: nat)
    requires Below(h, u, v, level) && c in Children(h, Strip(v))
    ensures Below(h, u, c, level + 1)
    decreases level
  {
    if level == 0 {
      assert Below(h, c, c, 0);
      BelowUnder(h, u, c, c, 0);
    } else {
      var d := BelowSplits(h, u, v, level - 1);
      BelowStep(h, d, v, c, level - 1);
      BelowUnder(h, u, d, c, level);
    }
  }

  lemma {:induction false} FitsBelow(h: Heap, u: Value, v: Value, level: nat, n: int)
    requires Fits(h, u, n) && Below(h, u, v, level)
    ensures Fits(h, v, n - level)
    decreases level
  {
    if level > 0 {
      var c := BelowSplits(h, u, v, level - 1);
      FitsBelow(h, c, v, level - 1, n - 1);
    }
  }

  /** Container `visit` has been entered on the way down to `v`. */
  ghost predicate Entered(h: Heap, visit: Visit, v: Value) {
    exists u, level: nat ::
      Below(h, u, v, level) && 1 <= level && Supported(Strip(u)) && Ref(Strip(u)) == Some(visit)
  }

  /** A value that leads back to a container above it never fits, however generous the limit. */
  lemma {:induction false} CycleNeverFits(h: Heap, u: Value, v: Value, level: nat, n: int)
    requires Below(h, u, v, level) && 1 <= level
    requires Supported(Strip(u)) && Ref(Strip(u)).Some? && Ref(Strip(u)) == Ref(Strip(v))
    ensures !Fits(h, v, n)
    decreases n + 1
  {
    if Fits(h, v, n) {
      assert Children(h, Strip(u)) == Children(h, Strip(v));
      assert Fits(h, u, n);
      FitsBelow(h, u, v, level, n);
      CycleNeverFits(h, u, v, level, n - level);
    }
  }

  /** No depth limit at all would let the value pass. */
  ghost predicate NeverFits(h: Heap, v: Value) {
    forall n: int :: !Fits(h, v, n)
  }

  // ------------------------------------------------------------------------------------------ the walk

  datatype Verdict = Accepted | TooDeep | NonFinite | NonStringKeys | Cyclic | UnsupportedValue

  /** The set of containers being visited, shared by the whole walk. */
  class ActiveSet {
    var visits: set<Visit>

    constructor ()
      ensures visits == {}
    {
      visits := {};
    }

    method Enter(visit: Visit) returns (entered: bool)
      modifies this
      ensures entered <==> visit !in old(visits)
      ensures visits == old(visits) + {visit}
    {
      if visit in visits {
        assert visits == visits + {visit};
        return false;
      }
      visits := visits + {visit};
      return true;
    }

    method Leave(visit: Visit)
      modifies this
      ensures visits == old(visits) - {visit}
    {
      visits := visits - {visit};
    }
  }

  ghost predicate AllEntered(h: Heap, visits: set<Visit>, v: Value) {
    forall visit :: visit in visits ==> Entered(h, visit, v)
  }

  /** What was entered on the way to `v`, and `v` itself, was entered on the way to its children. */
  lemma EnteredDeeper(h: Heap, visits: set<Visit>, v: Value, c: Value)
    requires AllEntered(h, visits, v) && c in Children(h, Strip(v)) && Supported(Strip(v))
    ensures AllEntered(h, visits, c)
    ensures Ref(Strip(v)).Some? ==> Entered(h, Ref(Strip(v)).value, c)
  {
    forall visit | visit in visits ensures Entered(h, visit, c) {
      var u, level: nat :| Below(h, u, v, level) && 1 <= level && Supported(Strip(u)) && Ref(Strip(u)) == Some(visit);
      BelowStep(h, u, v, c, level);
    }
    assert Below(h, v, v, 0);
    BelowStep(h, v, v, c, 0);
  }

  lemma EnteredNeverFits(h: Heap, v: Value)
    requires Ref(Strip(v)).Some? && Entered(h, Ref(Strip(v)).value, v)
    ensures NeverFits(h, v)
  {
    var u, level: nat :| Below(h, u, v, level) && 1 <= level && Supported(Strip(u)) && Ref(Strip(u)) == Ref(Strip(v));
    forall n: int ensures !Fits(h, v, n) { CycleNeverFits(h, u, v, level, n); }
  }

  /** What a refusal says about the value: what is wrong lies somewhere below it. For a value that is too deep that is
      any value `n + 1` levels below, for a cycle a container that leads to itself. */
  ghost predicate Justified(h: Heap, value: Value, verdict: Verdict, n: int)
    requires -1 <= n
  {
    match verdict
    case Accepted => true
    case TooDeep => exists w, level: nat :: level == n + 1 && Below(h, value, w, level)
    case NonFinite => exists w, level: nat :: Below(h, value, w, level) && Strip(w) == Float(false)
    case NonStringKeys => exists w, level: nat :: Below(h, value, w, level) && Strip(w).Map? && !Strip(w).stringKeys
    case UnsupportedValue => exists w, level: nat :: Below(h, value, w, level) && Strip(w) == Unsupported
    case Cyclic =>
      exists w, level: nat :: Below(h, value, w, level) && Ref(Strip(w)).Some? && Entered(h, Ref(Strip(w)).value, w)
  }

  /** What is wrong below a child is wrong below the parent. */
  lemma JustifiedAbove(h: Heap, v: Value, c: Value, verdict: Verdict, n: nat)
    requires c in Children(h, Strip(v)) && Justified(h, c, verdict, n - 1)
    ensures Justified(h, v, verdict, n)
  {
    match verdict
    case Accepted =>
    case TooDeep =>
      var w, level: nat :| level == n && Below(h, c, w, level);
      BelowUnder(h, v, c, w, level);
    case NonFinite =>
      var w, level: nat :| Below(h, c, w, level) && Strip(w) == Float(false);
      BelowUnder(h, v, c, w, level);
    case NonStringKeys =>
      var w, level: nat :| Below(h, c, w, level) && Strip(w).Map? && !Strip(w).stringKeys;
      BelowUnder(h, v, c, w, level);
    case UnsupportedValue =>
      var w, level: nat :| Below(h, c, w, level) && Strip(w) == Unsupported;
      BelowUnder(h, v, c, w, level);
    case Cyclic =>
      var w, level: nat :| Below(h, c, w, level) && Ref(Strip(w)).Some? && Entered(h, Ref(Strip(w)).value, w);
      BelowUnder(h, v, c, w, level);
  }

  lemma BelowStripped(h: Heap, u: Value, v: Value, w: Value, level: nat)
    requires Strip(u) == Strip(v)
    ensures Below(h, u, w, level) <==> Below(h, v, w, level)
  {
  }

  lemma JustifiedStripped(h: Heap, u: Value, v: Value, verdict: Verdict, n: int)
    requires Strip(u) == Strip(v) && -1 <= n && Justified(h, u, verdict, n)
    ensures Justified(h, v, verdict, n)
  {
    forall w, level: nat ensures Below(h, u, w, level) <==> Below(h, v, w, level) { BelowStripped(h, u, v, w, level); }
  }

  /** What is wrong with the value itself. */
  lemma JustifiedHere(h: Heap, v: Value, n: int)
    requires -1 <= n
    ensures n == -1 ==> Justified(h, v, TooDeep, n)
    ensures Strip(v) == Float(false) ==> Justified(h, v, NonFinite, n)
    ensures Strip(v).Map? && !Strip(v).stringKeys ==> Justified(h, v, NonStringKeys, n)
    ensures Strip(v) == Unsupported ==> Justified(h, v, UnsupportedValue, n)
    ensures Ref(Strip(v)).Some? && Entered(h, Ref(Strip(v)).value, v) ==> Justified(h, v, Cyclic, n)
  {
    BelowHere(h, v, v);
  }

  /** `validateJSONCompatibleSettingsValue`. It ends on every heap, leaves the active set as it found it, and
      accepts exactly what the depth limit alone accepts, provided the active containers are those above. A
      refusal other than `TooDeep` would stand under any limit. */
  method ValidateValue(h: Heap, value: Value, active: ActiveSet, depth: nat) returns (verdict: Verdict)
    requires depth <= MAXIMUM_DEPTH + 1 && AllEntered(h, active.visits, value)
    modifies active
    ensures active.visits == old(active.visits)
    ensures verdict == Accepted <==> Fits(h, value, MAXIMUM_DEPTH - depth)
    ensures verdict != Accepted && verdict != TooDeep ==> NeverFits(h, value)
    ensures Justified(h, value, verdict, MAXIMUM_DEPTH - depth)
    decreases MAXIMUM_DEPTH + 1 - depth, value, 1
  {
    JustifiedHere(h, value, MAXIMUM_DEPTH - depth);
    if depth > MAXIMUM_DEPTH { return TooDeep; }
    match value {
      case Invalid => return Accepted;
      case Scalar => return Accepted;
      case Float(finite) => return if finite then Accepted else NonFinite;
      case Unsupported => return UnsupportedValue;
      case Interface(elem) =>
        if elem == None { return Accepted; }
        EnteredStripped(h, active.visits, value);
        verdict := ValidateValue(h, elem.value, active, depth);
        assert forall n: int :: Fits(h, value, n) <==> Fits(h, elem.value, n);
        JustifiedStripped(h, elem.value, value, verdict, MAXIMUM_DEPTH - depth);
      case Map(stringKeys, ref) =>
        if !stringKeys { return NonStringKeys; }
        verdict := ValidateContainer(h, value, active, depth);
      case Slice(_) => verdict := ValidateContainer(h, value, active, depth);
      case Pointer(_) => verdict := ValidateContainer(h, value, active, depth);
      case Array(_) => verdict := ValidateChildren(h, value, active, depth);
      case Struct(_) => verdict := ValidateChildren(h, value, active, depth);
    }
  }

  lemma EnteredStripped(h: Heap, visits: set<Visit>, v: Value)
    requires v.Interface? && v.elem.Some? && AllEntered(h, visits, v)
    ensures AllEntered(h, visits, v.elem.value)
  {
    forall visit | visit in visits ensures Entered(h, visit, v.elem.value) {
      var u, level: nat :| Below(h, u, v, level) && 1 <= level && Supported(Strip(u)) && Ref(Strip(u)) == Some(visit);
      BelowSame(h, u, v, v.elem.value, level);
    }
  }

  lemma BelowHere(h: Heap, u: Value, v: Value)
    ensures Below(h, u, v, 0) <==> Strip(u) == Strip(v)
  {
  }

  lemma {:induction false} BelowSame(h: Heap, u: Value, v: Value, w: Value, level: nat)
    requires Below(h, u, v, level) && Strip(v) == Strip(w)
    ensures Below(h, u, w, level)
    decreases level
  {
    if level == 0 {
      BelowHere(h, u, v);
      BelowHere(h, u, w);
    } else {
      var c := BelowSplits(h, u, v, level - 1);
      BelowSame(h, c, v, w, level - 1);
      BelowUnder(h, u, c, w, level - 1);
    }
  }

  /** A map, slice or pointer: nil is accepted, a container already being visited is refused. */
  method ValidateContainer(h: Heap, value: Value, active: ActiveSet, depth: nat) returns (verdict: Verdict)
    requires depth <= MAXIMUM_DEPTH && AllEntered(h, active.visits, value)
    requires (value.Map? && value.stringKeys) || value.Slice? || value.Pointer?
    modifies active
    ensures active.visits == old(active.visits)
    ensures verdict == Accepted <==> Fits(h, value, MAXIMUM_DEPTH - depth)
    ensures verdict != Accepted && verdict != TooDeep ==> NeverFits(h, value)
    ensures Justified(h, value, verdict, MAXIMUM_DEPTH - depth)
    decreases MAXIMUM_DEPTH + 1 - depth, value, 0
  {
    if value.ref == None { return Accepted; }
    var visit := value.ref.value;
    var entered := active.Enter(visit);
    if !entered {
      EnteredNeverFits(h, value);
      JustifiedHere(h, value, MAXIMUM_DEPTH - depth);
      assert active.visits == old(active.visits);
      return Cyclic;
    }
    var children := Contents(h, visit);
    var i := 0;
    verdict := Accepted;
    while i < |children|
      invariant 0 <= i <= |children|
      invariant active.visits == old(active.visits) + {visit}
      invariant forall j :: 0 <= j < i ==> Fits(h, children[j], MAXIMUM_DEPTH - depth - 1)
      invariant verdict == Accepted
    {
      assert children[i] in Children(h, Strip(value));
      EnteredDeeper(h, old(active.visits), value, children[i]);
      verdict := ValidateValue(h, children[i], active, depth + 1);
      JustifiedAbove(h, value, children[i], verdict, MAXIMUM_DEPTH - depth);
      if verdict != Accepted { break; }
      i := i + 1;
    }
    active.Leave(visit);
  }

  /** An array or a struct, held in place: no container to enter. Invisible fields are skipped. */
  method ValidateChildren(h: Heap, value: Value, active: ActiveSet, depth: nat) returns (verdict: Verdict)
    requires depth <= MAXIMUM_DEPTH && AllEntered(h, active.visits, value)
    requires value.Array? || value.Struct?
    modifies active
    ensures active.visits == old(active.visits)
    ensures verdict == Accepted <==> Fits(h, value, MAXIMUM_DEPTH - depth)
    ensures verdict != Accepted && verdict != TooDeep ==> NeverFits(h, value)
    ensures Justified(h, value, verdict, MAXIMUM_DEPTH - depth)
    decreases MAXIMUM_DEPTH + 1 - depth, value, 0
  {
    var count := if value.Array? then |value.elems| else |value.fields|;
    var i := 0;
    while i < count
      invariant 0 <= i <= count
      invariant active.visits == old(active.visits)
      invariant value.Array? ==> forall j :: 0 <= j < i ==> Fits(h, value.elems[j], MAXIMUM_DEPTH - depth - 1)
      invariant value.Struct? ==> forall j :: 0 <= j < i && Visible(value.fields[j]) ==>
                                    Fits(h, value.fields[j].value, MAXIMUM_DEPTH - depth - 1)
    {
      if value.Array? || Visible(value.fields[i]) {
        var child := if value.Array? then value.elems[i] else value.fields[i].value;
        EnteredDeeper(h, active.visits, value, child);
        verdict := ValidateValue(h, child, active, depth + 1);
        JustifiedAbove(h, value, child, verdict, MAXIMUM_DEPTH - depth);
        if verdict != Accepted { return; }
      }
      i := i + 1;
    }
    return Accepted;
  }

  /** The check that `cloneJSONCompatibleSettings` makes before any marshaler runs; nil settings are accepted. */
  method ValidateSettings(h: Heap, source: Option<Value>) returns (verdict: Verdict)
    ensures source == None ==> verdict == Accepted
    ensures source.Some? ==> (verdict == Accepted <==> FiniteWithin(h, source.value, 128))
    ensures source.Some? && verdict != Accepted && verdict != TooDeep ==> NeverFits(h, source.value)
    ensures source.Some? ==> Justified(h, source.value, verdict, 128)
  {
    if source == None { return Accepted; }
    var active := new ActiveSet();
    verdict := ValidateValue(h, source.value, active, 0);
    FitsIffFinite(h, source.value, MAXIMUM_DEPTH);
  }
}

/** What is accepted, kind by kind, and what makes no difference. */
module SettingsKinds {
  import opened Wrappers
  import opened Settings

  /** One level of acceptance: with `n` levels left, what a value needs and what it passes on. A container that is nil
      needs nothing more; a field is passed over that is marked with a dash, or that is neither exported nor an embedded
      struct. */
  lemma KindByKind(h: Heap, v: Value, n: nat)
    ensures Fits(h, v, n) <==>
              match v
              case Invalid => true
              case Scalar => true
              case Float(finite) => finite
              case Unsupported => false
              case Interface(elem) => elem.Some? ==> Fits(h, elem.value, n)
              case Map(stringKeys, ref) => stringKeys && (ref.Some? ==> AllFit(h, ref.value, n - 1))
              case Slice(ref) => ref.Some? ==> AllFit(h, ref.value, n - 1)
              case Pointer(ref) => ref.Some? ==> AllFit(h, ref.value, n - 1)
              case Array(elems) => forall i :: 0 <= i < |elems| ==> Fits(h, elems[i], n - 1)
              case Struct(fields) =>
                forall i :: 0 <= i < |fields| && !fields[i].jsonDash
                            && (fields[i].exported || (fields[i].anonymous && fields[i].embedsStruct)) ==>
                  Fits(h, fields[i].value, n - 1)
  {
    if v.Map? || v.Slice? || v.Pointer? {
      ContainerFits(h, v, n);
    } else if v.Array? {
      ArrayFits(h, v.elems, n);
    } else if v.Struct? {
      StructFits(h, v.fields, n);
    }
  }

  /** What the heap holds in the container, if it holds it, fits. */
  predicate AllFit(h: Heap, visit: Visit, n: int) {
    visit in h ==> forall i :: 0 <= i < |h[visit]| ==> Fits(h, h[visit][i], n)
  }

  lemma ContainerFits(h: Heap, v: Value, n: nat)
    requires v.Map? || v.Slice? || v.Pointer?
    ensures Fits(h, v, n) <==> (v.Map? ==> v.stringKeys) && (v.ref.Some? ==> AllFit(h, v.ref.value, n - 1))
  {
    assert Strip(v) == v;
    if v.ref.Some? && v.ref.value in h {
      var values := h[v.ref.value];
      assert Children(h, v) == values && forall i :: 0 <= i < |values| ==> values[i] in values;
    } else {
      assert Children(h, v) == [];
    }
  }

  lemma ArrayFits(h: Heap, elems: seq<Value>, n: nat)
    ensures Fits(h, Array(elems), n) <==> forall i :: 0 <= i < |elems| ==> Fits(h, elems[i], n - 1)
  {
    var v := Array(elems);
    assert Strip(v) == v && Children(h, v) == elems;
    assert forall i :: 0 <= i < |elems| ==> elems[i] in elems;
  }

  lemma StructFits(h: Heap, fields: seq<Field>, n: nat)
    ensures Fits(h, Struct(fields), n) <==>
              forall i :: 0 <= i < |fields| && !fields[i].jsonDash
                          && (fields[i].exported || (fields[i].anonymous && fields[i].embedsStruct)) ==>
                Fits(h, fields[i].value, n - 1)
  {
    var v := Struct(fields);
    assert Strip(v) == v && Children(h, v) == VisibleValues(fields);
    assert forall i :: 0 <= i < |fields| && Visible(fields[i]) ==> fields[i].value in VisibleValues(fields);
  }

  /** Whatever stands in a hidden field, even a cycle or a channel, changes nothing. */
  lemma HiddenFieldsDoNotMatter(h: Heap, fields: seq<Field>, i: nat, other: Value, n: nat)
    requires i < |fields|
    requires fields[i].jsonDash || (!fields[i].exported && !(fields[i].anonymous && fields[i].embedsStruct))
    ensures Fits(h, Struct(fields), n) <==> Fits(h, Struct(fields[i := fields[i].(value := other)]), n)
  {
    var changed := fields[i := fields[i].(value := other)];
    StructFits(h, fields, n);
    StructFits(h, changed, n);
    assert forall j :: 0 <= j < |fields| && j != i ==> changed[j] == fields[j];
    assert forall j :: 0 <= j < |fields| && j != i ==> fields[j] == changed[j];
  }

  /** A scalar inside `k` arrays. */
  function Nested(k: nat): Value { if k == 0 then Scalar else Array([Nested(k - 1)]) }

  /** The limit is exact: a scalar inside 128 arrays is accepted, inside 129 it is not. */
  lemma {:induction false} NestingIsLimited(h: Heap, k: nat, n: int)
    ensures Fits(h, Nested(k), n) <==> k <= n
    decreases k
  {
    if k > 0 && n >= 0 {
      NestingIsLimited(h, k - 1, n - 1);
      var elems := [Nested(k - 1)];
      ArrayFits(h, elems, n);
      assert Fits(h, elems[0], n - 1) <==> k - 1 <= n - 1;
    }
  }
}
