/**
 Translation maps: nested objects of strings, the dotted-key flattening of them, and the
 nested assignment that rebuilds them.
 */
module TranslationTree {
  import Text
  import opened Optional

  datatype Value = Leaf(text: string) | Branch(entries: Tree)

  /** An object; the order of its keys only matters for presentation. */
  type Tree = map<string, Value>

  type Path = seq<string>

  // ----- dotted keys -----

  function SplitDots(s: string): (parts: Path)
    ensures parts != []
  {
    Text.Split(s, '.')
  }

  function Join(p: Path): string
    requires p != []
  {
    Text.Join(p, ".")
  }

  predicate DotFree(p: Path) {
    Text.Lacks(p, '.')
  }

  lemma JoinSplit(s: string)
    ensures Join(SplitDots(s)) == s && DotFree(SplitDots(s))
  {
    Text.JoinSplit(s, '.');
  }

  lemma SplitJoin(p: Path)
    requires p != [] && DotFree(p)
    ensures SplitDots(Join(p)) == p
  {
    Text.SplitJoin(p, '.');
  }

  /** The key built while descending: an empty prefix adds no dot. */
  function Extend(prefix: string, key: string): string {
    if prefix == "" then key else prefix + "." + key
  }

  function FullKey(prefix: string, p: Path): string
    decreases |p|
  {
    if p == [] then prefix else FullKey(Extend(prefix, p[0]), p[1..])
  }

  lemma {:induction false} FullKeyUnderPrefix(prefix: string, p: Path)
    requires prefix != "" && p != []
    ensures FullKey(prefix, p) == prefix + "." + Join(p)
    decreases |p|
  {
    if |p| > 1 {
      FullKeyUnderPrefix(Extend(prefix, p[0]), p[1..]);
    }
  }

  /** Descending builds the joined key, unless an object sits under an empty top-level key. */
  lemma FullKeyIsJoin(p: Path)
    requires p != [] && (p[0] != "" || |p| == 1)
    ensures FullKey("", p) == Join(p)
  {
    if |p| > 1 {
      FullKeyUnderPrefix(p[0], p[1..]);
    }
  }

  predicate LeadingDot(s: string) {
    s != "" && s[0] == '.'
  }

  lemma {:induction false} FullKeyHasNoLeadingDot(prefix: string, p: Path)
    requires !LeadingDot(prefix) && DotFree(p)
    ensures !LeadingDot(FullKey(prefix, p))
    decreases |p|
  {
    if p != [] {
      assert '.' !in p[0];
      FullKeyHasNoLeadingDot(Extend(prefix, p[0]), p[1..]);
    }
  }

  // ----- leaves -----

  function Lookup(t: Tree, p: Path): Option<string>
    decreases |p|
  {
    if p == [] || p[0] !in t then None
    else match t[p[0]]
      case Leaf(s) => if |p| == 1 then Some(s) else None
      case Branch(e) => Lookup(e, p[1..])
  }

  /** Every branch below holds something, and no key contains a dot. */
  ghost predicate Tidy(v: Value) {
    match v
    case Leaf(_) => true
    case Branch(e) => e != map[] && forall k :: k in e ==> '.' !in k && Tidy(e[k])
  }

  ghost predicate TidyTree(t: Tree) {
    forall k :: k in t ==> '.' !in k && Tidy(t[k])
  }

  lemma {:induction false} TidyHasLeaf(t: Tree) returns (p: Path)
    requires TidyTree(t) && t != map[]
    ensures Lookup(t, p).Some?
    decreases Branch(t)
  {
    var k :| k in t;
    match t[k]
    case Leaf(_) => p := [k];
    case Branch(e) =>
      var q := TidyHasLeaf(e);
      p := [k] + q;
      assert p[1..] == q;
  }

  /** Two tidy trees with the same leaves are equal. */
  lemma {:induction false} SameLeavesSameTree(t: Tree, u: Tree)
    requires TidyTree(t) && TidyTree(u) && forall p :: Lookup(t, p) == Lookup(u, p)
    ensures t == u
    decreases Branch(t)
  {
    forall k | k in t
      ensures k in u && t[k] == u[k]
    {
      SameLeavesSameEntry(t, u, k);
    }
    forall k | k in u
      ensures k in t
    {
      var p := LeafUnder(u, k);
      assert Lookup(t, p).Some?;
    }
  }

  lemma LeafUnder(t: Tree, k: string) returns (p: Path)
    requires TidyTree(t) && k in t
    ensures p != [] && p[0] == k && Lookup(t, p).Some?
  {
    match t[k]
    case Leaf(_) => p := [k];
    case Branch(e) =>
      var q := TidyHasLeaf(e);
      p := [k] + q;
      assert p[1..] == q;
  }

  lemma {:induction false} SameLeavesSameEntry(t: Tree, u: Tree, k: string)
    requires TidyTree(t) && TidyTree(u) && (forall p :: Lookup(t, p) == Lookup(u, p)) && k in t
    ensures k in u && t[k] == u[k]
    decreases Branch(t), 0
  {
    var p := LeafUnder(t, k);
    assert Lookup(u, p).Some?;
    match t[k]
    case Leaf(s) =>
      assert Lookup(t, [k]) == Some(s);
      assert Lookup(u, [k]) == Some(s);
    case Branch(e) =>
      assert Lookup(u, [k]) == Lookup(t, [k]) == None;
      var f := u[k].entries;
      forall q
        ensures Lookup(e, q) == Lookup(f, q)
      {
        assert ([k] + q)[1..] == q;
        assert Lookup(t, [k] + q) == Lookup(e, q);
        assert Lookup(u, [k] + q) == Lookup(f, q);
      }
      SameLeavesSameTree(e, f);
  }

  /** One leaf path is never a proper prefix of another. */
  lemma {:induction false} LeavesPrefixFree(t: Tree, p: Path, q: Path)
    requires Lookup(t, p).Some? && Lookup(t, q).Some? && p <= q
    ensures p == q
    decreases |p|
  {
    if t[p[0]].Branch? {
      LeavesPrefixFree(t[p[0]].entries, p[1..], q[1..]);
    }
  }

  // ----- flattening -----

  /** `out` holds exactly the leaves of `t` under their dotted keys. */
  ghost predicate IsFlattening(t: Tree, prefix: string, out: map<string, string>) {
    && (forall p :: Lookup(t, p).Some? ==> FullKey(prefix, p) in out)
    && (forall k :: k in out ==> FlattensTo(t, prefix, k, out[k]))
  }

  ghost predicate FlattensTo(t: Tree, prefix: string, k: string, text: string) {
    exists p :: FullKey(prefix, p) == k && Lookup(t, p) == Some(text)
  }

  /** Adds the leaves of `value` to `out`, visiting the keys in any order. */
  method FlattenTranslations(value: Tree, prefix: string, out0: map<string, string>)
    returns (out: map<string, string>)
    ensures out0.Keys <= out.Keys
    ensures forall p :: Lookup(value, p).Some? ==> FullKey(prefix, p) in out
    ensures forall k :: k in out ==> (k in out0 && out[k] == out0[k]) || FlattensTo(value, prefix, k, out[k])
    ensures out0 == map[] ==> IsFlattening(value, prefix, out)
    decreases Branch(value)
  {
    out := out0;
    var todo := value.Keys;
    while todo != {}
      invariant todo <= value.Keys && out0.Keys <= out.Keys
      invariant forall p :: Lookup(value, p).Some? && p[0] !in todo ==> FullKey(prefix, p) in out
      invariant forall k :: k in out ==>
                              (k in out0 && out[k] == out0[k]) || FlattensTo(value, prefix, k, out[k])
    {
      var key :| key in todo;
      todo := todo - {key};
      var fullKey := Extend(prefix, key);
      match value[key]
      case Leaf(text) =>
        assert FullKey(prefix, [key]) == fullKey && Lookup(value, [key]) == Some(text);
        assert FlattensTo(value, prefix, fullKey, text);
        out := out[fullKey := text];
      case Branch(nested) =>
        ghost var before := out;
        out := FlattenTranslations(nested, fullKey, out);
        forall k | k in out && !(k in before && out[k] == before[k])
          ensures FlattensTo(value, prefix, k, out[k])
        {
          var q :| FullKey(fullKey, q) == k && Lookup(nested, q) == Some(out[k]);
          assert ([key] + q)[1..] == q;
          assert FullKey(prefix, [key] + q) == k && Lookup(value, [key] + q) == Some(out[k]);
        }
    }
  }

  // ----- nested assignment -----

  /** `setNestedValue` on a split key: anything on the way that is not an object is replaced. */
  function SetNested(t: Tree, parts: Path, text: string): Tree
    requires parts != []
    decreases |parts|
  {
    var key := parts[0];
    if |parts| == 1 then t[key := Leaf(text)]
    else
      var nested := if key in t && t[key].Branch? then t[key].entries else map[];
      t[key := Branch(SetNested(nested, parts[1..], text))]
  }

  lemma {:induction false} EmptyLookup(p: Path)
    ensures Lookup(map[], p) == None
  {
  }

  lemma {:induction false} SetNestedLookup(t: Tree, parts: Path, text: string, q: Path)
    requires parts != []
    ensures Lookup(SetNested(t, parts, text), q) ==
            if q == parts then Some(text)
            else if q <= parts || parts <= q then None
            else Lookup(t, q)
    decreases |parts|
  {
    if q != [] && q[0] == parts[0] && |parts| > 1 {
      var key := parts[0];
      var nested := if key in t && t[key].Branch? then t[key].entries else map[];
      SetNestedLookup(nested, parts[1..], text, q[1..]);
      assert q == [key] + q[1..] && parts == [key] + parts[1..];
      assert q[1..] <= parts[1..] <==> q <= parts;
      assert parts[1..] <= q[1..] <==> parts <= q;
    } else if |parts| == 1 && q != [] && q[0] == parts[0] {
      assert parts <= q;
    }
  }

  lemma {:induction false} SetNestedTidy(t: Tree, parts: Path, text: string)
    requires parts != [] && DotFree(parts) && TidyTree(t)
    ensures TidyTree(SetNested(t, parts, text))
    decreases |parts|
  {
    if |parts| > 1 {
      var key := parts[0];
      var nested := if key in t && t[key].Branch? then t[key].entries else map[];
      assert Tidy(Leaf(text));
      SetNestedTidy(nested, parts[1..], text);
      assert parts[1] in SetNested(nested, parts[1..], text);
    }
  }

  /** Assigns every key of `order`, left to right, starting from an empty object. */
  function Rebuild(order: seq<string>, flat: map<string, string>): Tree
    requires forall k :: k in order ==> k in flat
  {
    if order == [] then map[]
    else
      var last := order[|order| - 1];
      SetNested(Rebuild(order[..|order| - 1], flat), SplitDots(last), flat[last])
  }

  ghost predicate Enumerates(order: seq<string>, flat: map<string, string>) {
    && (forall k :: k in order <==> k in flat)
    && (forall i, j :: 0 <= i < j < |order| ==> order[i] != order[j])
  }

  lemma {:induction false} RebuildTidy(order: seq<string>, flat: map<string, string>)
    requires forall k :: k in order ==> k in flat
    ensures TidyTree(Rebuild(order, flat))
  {
    if order != [] {
      var last := order[|order| - 1];
      RebuildTidy(order[..|order| - 1], flat);
      JoinSplit(last);
      SetNestedTidy(Rebuild(order[..|order| - 1], flat), SplitDots(last), flat[last]);
    }
  }

  /** A leaf of the rebuilt tree comes from a key that splits into its path. */
  lemma {:induction false} RebuildOnlyKeys(order: seq<string>, flat: map<string, string>, q: Path)
    requires forall k :: k in order ==> k in flat
    requires Lookup(Rebuild(order, flat), q).Some?
    ensures q != [] && Join(q) in order && SplitDots(Join(q)) == q
    ensures Lookup(Rebuild(order, flat), q) == Some(flat[Join(q)])
  {
    if order == [] {
      EmptyLookup(q);
    } else {
      var last := order[|order| - 1];
      var rest := order[..|order| - 1];
      SetNestedLookup(Rebuild(rest, flat), SplitDots(last), flat[last], q);
      JoinSplit(last);
      if q != SplitDots(last) {
        RebuildOnlyKeys(rest, flat, q);
      }
    }
  }

  /** No key names a leaf inside another. */
  ghost predicate PrefixFree(keys: set<string>) {
    forall a, b :: a in keys && b in keys && SplitDots(a) <= SplitDots(b) ==> a == b
  }

  lemma {:induction false} RebuildAllKeys(order: seq<string>, flat: map<string, string>, k: string)
    requires forall j :: j in order ==> j in flat
    requires PrefixFree(flat.Keys) && k in order
    requires forall i, j :: 0 <= i < j < |order| ==> order[i] != order[j]
    ensures Lookup(Rebuild(order, flat), SplitDots(k)) == Some(flat[k])
  {
    var last := order[|order| - 1];
    var rest := order[..|order| - 1];
    SetNestedLookup(Rebuild(rest, flat), SplitDots(last), flat[last], SplitDots(k));
    if k != last {
      JoinSplit(k);
      JoinSplit(last);
      RebuildAllKeys(rest, flat, k);
    }
  }

  // ----- the two round trips, exactly -----

  /** Dot-free keys, no empty sub-objects, and no object under an empty top-level key. */
  ghost predicate Canonical(t: Tree) {
    TidyTree(t) && ("" in t ==> t[""].Leaf?)
  }

  lemma {:induction false} LeafPathDotFree(t: Tree, p: Path)
    requires TidyTree(t) && Lookup(t, p).Some?
    ensures p != [] && DotFree(p)
    decreases |p|
  {
    if t[p[0]].Branch? {
      LeafPathDotFree(t[p[0]].entries, p[1..]);
    }
  }

  lemma CanonicalLeafKey(t: Tree, p: Path)
    requires Canonical(t) && Lookup(t, p).Some?
    ensures p != [] && FullKey("", p) == Join(p) && SplitDots(Join(p)) == p
  {
    LeafPathDotFree(t, p);
    FullKeyIsJoin(p);
    SplitJoin(p);
  }

  lemma CanonicalFlatValue(t: Tree, out: map<string, string>, k: string)
    requires Canonical(t) && IsFlattening(t, "", out) && k in out
    ensures Lookup(t, SplitDots(k)) == Some(out[k])
  {
    assert FlattensTo(t, "", k, out[k]);
    var p :| FullKey("", p) == k && Lookup(t, p) == Some(out[k]);
    CanonicalLeafKey(t, p);
  }

  lemma CanonicalFlatPrefixFree(t: Tree, out: map<string, string>)
    requires Canonical(t) && IsFlattening(t, "", out)
    ensures PrefixFree(out.Keys)
  {
    forall a, b | a in out && b in out && SplitDots(a) <= SplitDots(b)
      ensures a == b
    {
      CanonicalFlatValue(t, out, a);
      CanonicalFlatValue(t, out, b);
      LeavesPrefixFree(t, SplitDots(a), SplitDots(b));
      JoinSplit(a);
      JoinSplit(b);
    }
  }

  lemma FlattenedHasNoLeadingDot(t: Tree, out: map<string, string>, k: string)
    requires TidyTree(t) && IsFlattening(t, "", out) && k in out
    ensures !LeadingDot(k)
  {
    assert FlattensTo(t, "", k, out[k]);
    var p :| FullKey("", p) == k && Lookup(t, p) == Some(out[k]);
    LeafPathDotFree(t, p);
    FullKeyHasNoLeadingDot("", p);
  }

  lemma CanonicalRebuilds(t: Tree, out: map<string, string>, order: seq<string>)
    requires IsFlattening(t, "", out) && Enumerates(order, out) && Canonical(t)
    ensures Rebuild(order, out) == t
  {
    var u := Rebuild(order, out);
    CanonicalFlatPrefixFree(t, out);
    RebuildTidy(order, out);
    forall p
      ensures Lookup(u, p) == Lookup(t, p)
    {
      if Lookup(t, p).Some? {
        CanonicalLeafKey(t, p);
        CanonicalFlatValue(t, out, Join(p));
        RebuildAllKeys(order, out, Join(p));
      } else if Lookup(u, p).Some? {
        RebuildOnlyKeys(order, out, p);
        CanonicalFlatValue(t, out, Join(p));
      }
    }
    SameLeavesSameTree(u, t);
  }

  /** Rebuilding a flattened map gives it back exactly when it is canonical. */
  lemma FlattenRebuildIffCanonical(t: Tree, out: map<string, string>, order: seq<string>)
    requires IsFlattening(t, "", out) && Enumerates(order, out)
    ensures Rebuild(order, out) == t <==> Canonical(t)
  {
    if Canonical(t) {
      CanonicalRebuilds(t, out, order);
    }
    if Rebuild(order, out) == t {
      RebuildTidy(order, out);
      if "" in t && t[""].Branch? {
        var p := LeafUnder(t, "");
        RebuildOnlyKeys(order, out, p);
        FlattenedHasNoLeadingDot(t, out, Join(p));
        assert false;
      }
    }
  }

  /** Keys that name distinct leaves and do not begin with a dot. */
  ghost predicate Flattenable(keys: set<string>) {
    PrefixFree(keys) && forall k :: k in keys ==> !LeadingDot(k)
  }

  lemma LeafOfNoLeadingDot(k: string, p: Path)
    requires !LeadingDot(k) && p == SplitDots(k)
    ensures FullKey("", p) == k
  {
    JoinSplit(k);
    FullKeyIsJoin(p);
  }

  lemma FlattenableFlattens(flat: map<string, string>, order: seq<string>, out: map<string, string>)
    requires Enumerates(order, flat) && Flattenable(flat.Keys)
    requires IsFlattening(Rebuild(order, flat), "", out)
    ensures out == flat
  {
    var t := Rebuild(order, flat);
    forall k | k in out
      ensures k in flat && out[k] == flat[k]
    {
      assert FlattensTo(t, "", k, out[k]);
      var p :| FullKey("", p) == k && Lookup(t, p) == Some(out[k]);
      RebuildOnlyKeys(order, flat, p);
      LeafOfNoLeadingDot(Join(p), p);
    }
    forall k | k in flat
      ensures k in out
    {
      RebuildAllKeys(order, flat, k);
      LeafOfNoLeadingDot(k, SplitDots(k));
    }
  }

  lemma FlattenedKeyIsLeaf(flat: map<string, string>, order: seq<string>, k: string)
    requires Enumerates(order, flat) && IsFlattening(Rebuild(order, flat), "", flat) && k in flat
    ensures !LeadingDot(k) && Lookup(Rebuild(order, flat), SplitDots(k)).Some?
  {
    var t := Rebuild(order, flat);
    RebuildTidy(order, flat);
    FlattenedHasNoLeadingDot(t, flat, k);
    assert FlattensTo(t, "", k, flat[k]);
    var p :| FullKey("", p) == k && Lookup(t, p) == Some(flat[k]);
    RebuildOnlyKeys(order, flat, p);
    FlattenedHasNoLeadingDot(t, flat, Join(p));
    LeafOfNoLeadingDot(Join(p), p);
  }

  lemma FlattenedIsFlattenable(flat: map<string, string>, order: seq<string>)
    requires Enumerates(order, flat) && IsFlattening(Rebuild(order, flat), "", flat)
    ensures Flattenable(flat.Keys)
  {
    forall k | k in flat
      ensures !LeadingDot(k)
    {
      FlattenedKeyIsLeaf(flat, order, k);
    }
    forall a, b | a in flat && b in flat && SplitDots(a) <= SplitDots(b)
      ensures a == b
    {
      FlattenedKeyIsLeaf(flat, order, a);
      FlattenedKeyIsLeaf(flat, order, b);
      LeavesPrefixFree(Rebuild(order, flat), SplitDots(a), SplitDots(b));
      JoinSplit(a);
      JoinSplit(b);
    }
  }

  /** Flattening a rebuilt map gives its keys back exactly when they are flattenable. */
  lemma RebuildFlattenIffFlattenable(flat: map<string, string>, order: seq<string>, out: map<string, string>)
    requires Enumerates(order, flat) && IsFlattening(Rebuild(order, flat), "", out)
    ensures out == flat <==> Flattenable(flat.Keys)
  {
    if Flattenable(flat.Keys) {
      FlattenableFlattens(flat, order, out);
    }
    if out == flat {
      FlattenedIsFlattenable(flat, order);
    }
  }

  /** Keys that are non-empty and dot-free at every level; empty sub-objects are allowed. */
  ghost predicate PlainKeys(v: Value) {
    match v
    case Leaf(_) => true
    case Branch(e) => forall k :: k in e ==> k != "" && '.' !in k && PlainKeys(e[k])
  }

  lemma {:induction false} PlainLeafPath(t: Tree, p: Path)
    requires PlainKeys(Branch(t)) && Lookup(t, p).Some?
    ensures p != [] && p[0] != "" && DotFree(p)
    decreases |p|
  {
    assert PlainKeys(t[p[0]]);
    if t[p[0]].Branch? {
      PlainLeafPath(t[p[0]].entries, p[1..]);
    }
  }

  lemma PlainFlatKey(t: Tree, out: map<string, string>, k: string)
    requires PlainKeys(Branch(t)) && IsFlattening(t, "", out) && k in out
    ensures !LeadingDot(k) && Lookup(t, SplitDots(k)).Some?
  {
    assert FlattensTo(t, "", k, out[k]);
    var p :| FullKey("", p) == k && Lookup(t, p) == Some(out[k]);
    PlainLeafPath(t, p);
    FullKeyHasNoLeadingDot("", p);
    FullKeyIsJoin(p);
    SplitJoin(p);
  }

  /** The keys of a flattened map with plain keys are flattenable, so both round trips apply to them. */
  lemma PlainIsFlattenable(t: Tree, out: map<string, string>)
    requires PlainKeys(Branch(t)) && IsFlattening(t, "", out)
    ensures Flattenable(out.Keys)
  {
    forall k | k in out
      ensures !LeadingDot(k)
    {
      PlainFlatKey(t, out, k);
    }
    forall a, b | a in out && b in out && SplitDots(a) <= SplitDots(b)
      ensures a == b
    {
      PlainFlatKey(t, out, a);
      PlainFlatKey(t, out, b);
      LeavesPrefixFree(t, SplitDots(a), SplitDots(b));
      JoinSplit(a);
      JoinSplit(b);
    }
  }

  // ----- inputs that do not survive -----

  /** A key that begins with a dot comes back without it. */
  lemma LeadingDotIsLost(text: string, out: map<string, string>)
    requires IsFlattening(Rebuild([".a"], map[".a" := text]), "", out)
    ensures out != map[".a" := text]
  {
    var flat := map[".a" := text];
    assert ".a" in flat.Keys && LeadingDot(".a");
    RebuildFlattenIffFlattenable(flat, [".a"], out);
  }

  /** Of a key and another below it only one survives. */
  lemma OverlapIsLost(x: string, y: string, out: map<string, string>)
    requires IsFlattening(Rebuild(["a", "a.b"], map["a" := x, "a.b" := y]), "", out)
    ensures out != map["a" := x, "a.b" := y]
  {
    var flat := map["a" := x, "a.b" := y];
    SplitJoin(["a"]);
    SplitJoin(["a", "b"]);
    assert Join(["a"]) == "a" && Join(["a", "b"]) == "a" + "." + Join(["b"]);
    assert "a" in flat.Keys && "a.b" in flat.Keys && SplitDots("a") <= SplitDots("a.b");
    RebuildFlattenIffFlattenable(flat, ["a", "a.b"], out);
  }

  /** An object under an empty top-level key is not rebuilt. */
  lemma ObjectUnderEmptyKeyIsLost(text: string, out: map<string, string>, order: seq<string>)
    requires IsFlattening(map["" := Branch(map["a" := Leaf(text)])], "", out) && Enumerates(order, out)
    ensures Rebuild(order, out) != map["" := Branch(map["a" := Leaf(text)])]
  {
    FlattenRebuildIffCanonical(map["" := Branch(map["a" := Leaf(text)])], out, order);
  }

  /** Nor is an empty sub-object. */
  lemma EmptyObjectIsLost(out: map<string, string>, order: seq<string>)
    requires IsFlattening(map["a" := Branch(map[])], "", out) && Enumerates(order, out)
    ensures Rebuild(order, out) != map["a" := Branch(map[])]
  {
    var t: Tree := map["a" := Branch(map[])];
    assert "a" in t && !Tidy(t["a"]);
    FlattenRebuildIffCanonical(t, out, order);
  }
}
