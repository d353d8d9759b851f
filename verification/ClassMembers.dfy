/** Members of a class with everything it inherits, by a depth-first walk that shares one visited set. */
module ClassMembers {
  import opened Graphs

  datatype ClassInfo = ClassInfo(fields: set<string>, properties: set<string>, methods: set<string>,
                                 parents: seq<string>)

  type ClassIndex = map<string, ClassInfo>

  datatype Members = Members(fields: set<string>, properties: set<string>, methods: set<string>) {
    function Union(other: Members): Members {
      Members(fields + other.fields, properties + other.properties, methods + other.methods)
    }
  }

  /** The names visited by the walks of one resolution. */
  class Seen {
    var names: set<string>

    constructor ()
      ensures names == {}
    {
      names := {};
    }
  }

  /** Parent edges; a class that is not indexed has none. */
  function Inherits(index: ClassIndex): Graph { map c | c in index :: set p | p in index[c].parents }

  /** Everything the indexed classes of `s` declare. */
  ghost function MembersOf(index: ClassIndex, s: set<string>): Members {
    Members(
      set f, c | c in s && c in index && f in index[c].fields :: f,
      set f, c | c in s && c in index && f in index[c].properties :: f,
      set f, c | c in s && c in index && f in index[c].methods :: f)
  }

  lemma MembersUnion(index: ClassIndex, s: set<string>, t: set<string>)
    ensures MembersOf(index, s + t) == MembersOf(index, s).Union(MembersOf(index, t))
  {
  }

  lemma MembersOfOne(index: ClassIndex, c: string)
    requires c in index
    ensures MembersOf(index, {c}) == Members(index[c].fields, index[c].properties, index[c].methods)
  {
  }

  /** What one walk from `name` adds: reachable classes only, closed under parents, and their members. */
  ghost predicate Walked(index: ClassIndex, name: string, before: set<string>, after: set<string>, m: Members) {
    && before <= after && name in after
    && (forall c :: c in after - before ==> Reach(Inherits(index), name, c))
    && (forall c, p :: c in after - before && Edge(Inherits(index), c, p) ==> p in after)
    && m == MembersOf(index, after - before)
  }

  lemma WalkedAlready(index: ClassIndex, name: string, before: set<string>)
    requires name in before
    ensures Walked(index, name, before, before, Members({}, {}, {}))
  {
    assert before - before == {};
  }

  lemma WalkedUnknown(index: ClassIndex, name: string, before: set<string>)
    requires name !in before && name !in index
    ensures Walked(index, name, before, before + {name}, Members({}, {}, {}))
  {
    ReachSelf(Inherits(index), name);
    assert before + {name} - before == {name};
  }

  /** `name` is marked and its own members taken; of its parents, those in `done` are walked. */
  ghost predicate Walking(index: ClassIndex, name: string, before: set<string>, now: set<string>, m: Members,
                          done: seq<string>) {
    && before + {name} <= now
    && (forall p :: p in done ==> p in now)
    && (forall c :: c in now - before ==> Reach(Inherits(index), name, c))
    && (forall c, p :: c in now - before && c != name && Edge(Inherits(index), c, p) ==> p in now)
    && m == MembersOf(index, now - before)
  }

  lemma WalkStarts(index: ClassIndex, name: string, before: set<string>)
    requires name !in before && name in index
    ensures Walking(index, name, before, before + {name},
                    Members(index[name].fields, index[name].properties, index[name].methods), [])
  {
    ReachSelf(Inherits(index), name);
    assert before + {name} - before == {name};
    MembersOfOne(index, name);
  }

  lemma WalkParent(index: ClassIndex, name: string, done: seq<string>, parent: string, before: set<string>,
                   start: set<string>, after: set<string>, m: Members, inherited: Members)
    requires name in index && parent in index[name].parents && Walking(index, name, before, start, m, done)
    requires Walked(index, parent, start, after, inherited)
    ensures Walking(index, name, before, after, m.Union(inherited), done + [parent])
  {
    assert after - before == (start - before) + (after - start);
    MembersUnion(index, start - before, after - start);
    forall c | c in after - start ensures Reach(Inherits(index), name, c) {
      ReachStep(Inherits(index), name, parent, c);
    }
  }

  method ResolveParents(name: string, index: ClassIndex, seen: Seen, ghost before: set<string>, own: Members)
    returns (m: Members)
    requires name in index && name !in before && Walking(index, name, before, seen.names, own, [])
    modifies seen
    ensures Walked(index, name, before, seen.names, m)
    decreases |index.Keys - before|, 0
  {
    m := own;
    var parents := index[name].parents;
    for i := 0 to |parents|
      invariant Walking(index, name, before, seen.names, m, parents[..i])
    {
      ghost var start := seen.names;
      FewerUnseen(index.Keys, before, start, name);
      var inherited := Resolve(parents[i], index, seen);
      WalkParent(index, name, parents[..i], parents[i], before, start, seen.names, m, inherited);
      assert parents[..i + 1] == parents[..i] + [parents[i]];
      m := m.Union(inherited);
    }
    assert parents[..|parents|] == parents;
  }

  method Resolve(name: string, index: ClassIndex, seen: Seen) returns (m: Members)
    modifies seen
    ensures Walked(index, name, old(seen.names), seen.names, m)
    decreases |index.Keys - seen.names|, 1
  {
    ghost var before := seen.names;
    if name in seen.names {
      WalkedAlready(index, name, before);
      return Members({}, {}, {});
    }
    seen.names := seen.names + {name};
    if name !in index {
      WalkedUnknown(index, name, before);
      return Members({}, {}, {});
    }
    WalkStarts(index, name, before);
    m := ResolveParents(name, index, seen, before,
      Members(index[name].fields, index[name].properties, index[name].methods));
  }

  /** A walk that starts with nothing visited visits exactly what is reachable. */
  lemma WalkedIsReachable(index: ClassIndex, name: string, after: set<string>, m: Members)
    requires Walked(index, name, {}, after, m)
    ensures forall c :: c in after <==> Reach(Inherits(index), name, c)
    ensures m == MembersOf(index, after)
  {
    assert after - {} == after;
    assert Closed(Inherits(index), after);
    forall c | Reach(Inherits(index), name, c) ensures c in after {
      var n: nat :| ReachIn(Inherits(index), name, c, n);
      ClosedHolds(Inherits(index), after, name, c, n);
    }
  }

  /** A member is answered exactly when some class reachable from `name`, itself included, declares it,
      cycles and unknown parents notwithstanding. */
  method ResolveTransitive(name: string, index: ClassIndex) returns (m: Members)
    ensures forall f :: f in m.fields <==>
      exists c :: c in index && Reach(Inherits(index), name, c) && f in index[c].fields
    ensures forall f :: f in m.properties <==>
      exists c :: c in index && Reach(Inherits(index), name, c) && f in index[c].properties
    ensures forall f :: f in m.methods <==>
      exists c :: c in index && Reach(Inherits(index), name, c) && f in index[c].methods
  {
    var seen := new Seen();
    m := Resolve(name, index, seen);
    WalkedIsReachable(index, name, seen.names, m);
  }
}
