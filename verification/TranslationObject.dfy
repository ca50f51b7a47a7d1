/**
 Translation maps as the objects the script builds: nested assignment walks down from the root,
 making objects on the way, and changes the one it ends at.
 */
module TranslationObject {
  import opened TranslationTree

  datatype Entry = Text(text: string) | Nested(child: TranslationMap)

  class TranslationMap {
    var entries: map<string, Entry>
    ghost var repr: set<TranslationMap>

    /** Objects under different keys share nothing, and nothing leads back up. */
    ghost predicate Valid()
      reads this, repr
      decreases repr
    {
      && this in repr
      && (forall k :: k in entries && entries[k].Nested? ==>
                        var child := entries[k].child;
                        child in repr && child.repr <= repr && this !in child.repr && child.Valid())
      && (forall j, k :: j in entries && k in entries && j != k && entries[j].Nested? && entries[k].Nested? ==>
                           entries[j].child.repr !! entries[k].child.repr)
    }

    /** What the object holds, as a value. */
    function Value(): Tree
      requires Valid()
      reads this, repr
      decreases repr
    {
      map k | k in entries ::
        match entries[k]
        case Text(text) => Leaf(text)
        case Nested(child) => Branch(child.Value())
    }

    constructor ()
      ensures Valid() && fresh(repr) && Value() == map[]
    {
      entries, repr := map[], {this};
    }

    /** The assignment at the end of the walk. */
    method AssignText(key: string, text: string)
      requires Valid()
      modifies this`entries
      ensures Valid()
      ensures Value() == old(Value())[key := Leaf(text)]
    {
      entries := entries[key := Text(text)];
      forall k | k in entries && entries[k].Nested?
        ensures entries[k].child.Valid() && entries[k].child.Value() == old(entries[k].child.Value())
      {
        assert k != key && entries[k] == old(entries[k]);
      }
    }

    method AddObject(key: string, next: TranslationMap)
      requires Valid() && next.Valid() && next.repr !! repr
      modifies this
      ensures Valid() && repr == old(repr) + next.repr
      ensures entries == old(entries)[key := Nested(next)]
      ensures Value() == old(Value())[key := Branch(next.Value())]
    {
      entries := entries[key := Nested(next)];
      repr := repr + next.repr;
      forall k | k in entries && k != key && entries[k].Nested?
        ensures entries[k].child.Valid() && entries[k].child.Value() == old(entries[k].child.Value())
      {
        assert entries[k] == old(entries[k]);
      }
    }

    /** The step of the walk: the object under `key`, made if there is none. */
    method ObjectAt(key: string) returns (next: TranslationMap)
      requires Valid()
      modifies this
      ensures Valid() && fresh(repr - old(repr))
      ensures key in entries && entries[key] == Nested(next)
      ensures next.Valid() && next.Value() == ObjectUnder(old(Value()), key)
      ensures Value() == old(Value())[key := Branch(next.Value())]
    {
      if key !in entries || entries[key].Text? {
        next := new TranslationMap();
        AddObject(key, next);
      } else {
        next := entries[key].child;
      }
    }

    /** Assigns `text` to the path `parts`; whatever is in the way and not an object is replaced. */
    method SetNestedValue(parts: Path, text: string)
      requires Valid() && parts != []
      modifies repr
      ensures Valid() && fresh(repr - old(repr))
      ensures Value() == SetNested(old(Value()), parts, text)
      decreases |parts|, 1
    {
      if |parts| == 1 {
        AssignText(parts[0], text);
      } else {
        ghost var before := Value();
        var next := ObjectAt(parts[0]);
        ghost var under := next.Value();
        WalkOn(parts[0], next, parts[1..], text);
        OverwriteTwice(before, parts[0], Branch(under), Branch(SetNested(under, parts[1..], text)));
      }
    }

    /** The rest of the walk, which leaves the other entries as they were. */
    method WalkOn(key: string, next: TranslationMap, parts: Path, text: string)
      requires Valid() && parts != []
      requires key in entries && entries[key] == Nested(next)
      modifies repr
      ensures Valid() && fresh(repr - old(repr))
      ensures Value() == old(Value())[key := Branch(SetNested(old(next.Value()), parts, text))]
      decreases |parts|, 2
    {
      ghost var before := Value();
      next.SetNestedValue(parts, text);
      forall k | k in entries && k != key && entries[k].Nested?
        ensures Fits(entries[k].child) && entries[k].child.repr !! next.repr
        ensures entries[k].child.repr == old(entries[k].child.repr)
        ensures before[k] == Branch(entries[k].child.Value())
      {
        assert unchanged(old(entries[k].child.repr));
      }
      Absorb(key, next, before);
    }

    ghost predicate Fits(child: TranslationMap)
      reads this, repr, child, child.repr
    {
      child in repr && child.repr <= repr && this !in child.repr && child.Valid()
    }

    /** Takes in what was made below the object under `key`. */
    ghost method Absorb(key: string, next: TranslationMap, before: Tree)
      requires this in repr && next in repr && next.Valid() && this !in next.repr
      requires key in entries && entries[key] == Nested(next)
      requires before.Keys == entries.Keys
      requires forall k :: k in entries && entries[k].Text? ==> before[k] == Leaf(entries[k].text)
      requires forall k :: k in entries && k != key && entries[k].Nested? ==>
                             Fits(entries[k].child) && entries[k].child.repr !! next.repr
                             && before[k] == Branch(entries[k].child.Value())
      requires forall j, k :: j in entries && k in entries && j != k && entries[j].Nested? && entries[k].Nested?
                              ==> entries[j].child.repr !! entries[k].child.repr
      modifies this`repr
      ensures Valid() && repr == old(repr) + next.repr
      ensures Value() == before[key := Branch(next.Value())]
    {
      repr := repr + next.repr;
    }
  }

  lemma OverwriteTwice(t: Tree, key: string, a: Value, b: Value)
    ensures t[key := a][key := b] == t[key := b]
  {
  }

  function ObjectUnder(t: Tree, key: string): Tree {
    if key in t && t[key].Branch? then t[key].entries else map[]
  }

  /** The assignment loop of `syncLocale` builds `Rebuild` in a fresh object. */
  method RebuildMap(order: seq<string>, flat: map<string, string>) returns (root: TranslationMap)
    requires forall k :: k in order ==> k in flat
    ensures root.Valid() && fresh(root.repr)
    ensures root.Value() == Rebuild(order, flat)
  {
    root := new TranslationMap();
    for i := 0 to |order|
      invariant root.Valid() && fresh(root.repr)
      invariant root.Value() == Rebuild(order[..i], flat)
    {
      assert order[..i + 1][..i] == order[..i];
      root.SetNestedValue(SplitDots(order[i]), flat[order[i]]);
    }
    assert order[..|order|] == order;
  }
}
