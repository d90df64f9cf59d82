// The Registry of include/royale/Runner.hpp: connected remote runners and,
// per experiment name, the remotes that can execute it.
module Registries {

  /** The connection a remote runner talks over. */
  type StreamId = int

  /** A registered remote: its connection and the experiment names it
      announced (in announcement order, repeats allowed). */
  class Remote {
    const stream: StreamId
    const experiments: seq<string>

    constructor (stream: StreamId, experiments: seq<string>)
      ensures this.stream == stream && this.experiments == experiments
    {
      this.stream := stream;
      this.experiments := experiments;
    }
  }

  /** How many times `name` occurs in `names`. */
  function Occurrences(names: seq<string>, name: string): (n: nat)
    ensures n <= |names|
    ensures n == 0 <==> name !in names
  {
    if names == [] then 0
    else Occurrences(names[..|names| - 1], name) + (if names[|names| - 1] == name then 1 else 0)
  }

  function Repeat(r: Remote, n: nat): (s: seq<Remote>)
    ensures |s| == n && forall i | 0 <= i < n :: s[i] == r
  {
    if n == 0 then [] else Repeat(r, n - 1) + [r]
  }

  /** The executors of `name` a multimap filled by registering `rs` in
      order holds: each remote once per time it announced the name. */
  function Entries(rs: seq<Remote>, name: string): (e: seq<Remote>)
    ensures forall x | x in e :: x in rs && name in x.experiments
  {
    if rs == [] then []
    else
      var last := rs[|rs| - 1];
      Entries(rs[..|rs| - 1], name) + Repeat(last, Occurrences(last.experiments, name))
  }

  /** `rs` without the remote `dead`: the remote list after `remotes.erase`, or an
      equal range of the executor multimap after the dead remote's entries are erased. */
  function Without(rs: seq<Remote>, dead: Remote): (r: seq<Remote>)
    ensures forall x | x in r :: x in rs && x != dead
    ensures forall x | x in rs && x != dead :: x in r
  {
    if rs == [] then []
    else Without(rs[..|rs| - 1], dead) + (if rs[|rs| - 1] == dead then [] else [rs[|rs| - 1]])
  }

  /** `rs` after removing each remote of `ds` in turn, first to last. */
  function WithoutAll(rs: seq<Remote>, ds: seq<Remote>): (r: seq<Remote>)
    ensures forall x | x in r :: x in rs && x !in ds
    ensures forall x | x in rs && x !in ds :: x in r
  {
    if ds == [] then rs else Without(WithoutAll(rs, ds[..|ds| - 1]), ds[|ds| - 1])
  }

  lemma {:induction false} EraseAppend(a: seq<Remote>, b: seq<Remote>, dead: Remote)
    ensures Without(a + b, dead) == Without(a, dead) + Without(b, dead)
    decreases |b|
  {
    if b != [] {
      assert (a + b)[..|a + b| - 1] == a + b[..|b| - 1];
      EraseAppend(a, b[..|b| - 1], dead);
    } else {
      assert a + b == a;
    }
  }

  lemma {:induction false} EraseRepeat(r: Remote, n: nat, dead: Remote)
    ensures Without(Repeat(r, n), dead) == if r == dead then [] else Repeat(r, n)
  {
    if n > 0 {
      EraseRepeat(r, n - 1, dead);
      assert Repeat(r, n)[..n - 1] == Repeat(r, n - 1);
    }
  }

  /** Erasing the dead remote's entries from every range gives the ranges
      of the remaining remotes. */
  lemma {:induction false} EntriesWithout(rs: seq<Remote>, dead: Remote, name: string)
    ensures Entries(Without(rs, dead), name) == Without(Entries(rs, name), dead)
  {
    if rs != [] {
      var init, last := rs[..|rs| - 1], rs[|rs| - 1];
      EntriesWithout(init, dead, name);
      var rep := Repeat(last, Occurrences(last.experiments, name));
      assert Entries(rs, name) == Entries(init, name) + rep;
      EraseAppend(Entries(init, name), rep, dead);
      EraseRepeat(last, Occurrences(last.experiments, name), dead);
      var w := Without(init, dead);
      if last != dead {
        assert Without(rs, dead) == w + [last];
        EntriesAppend(w, last, name);
      } else {
        assert Without(rs, dead) == w + [];
        assert w + [] == w;
        assert Without(Entries(rs, name), dead) == Without(Entries(init, name), dead) + [];
      }
    }
  }

  /** Registering one more remote extends each range by that remote,
      once per time it announced the name. */
  lemma EntriesAppend(rs: seq<Remote>, r: Remote, name: string)
    ensures Entries(rs + [r], name) == Entries(rs, name) + Repeat(r, Occurrences(r.experiments, name))
  {
    assert (rs + [r])[..|rs|] == rs;
  }

  predicate Distinct(rs: seq<Remote>)
  {
    forall i, j | 0 <= i < j < |rs| :: rs[i] != rs[j]
  }

  /** `ex` is the executor multimap of the remote list `rs`. */
  ghost predicate IsIndex(ex: map<string, seq<Remote>>, rs: seq<Remote>)
  {
    && (forall name | name in ex :: ex[name] != [] && ex[name] == Entries(rs, name))
    && (forall name | name !in ex :: Entries(rs, name) == [])
  }

  /** The ranges while register_remote is half way through the names: the
      old ranges, plus the new remote once per name seen so far. */
  ghost predicate PartlyRegistered(ex: map<string, seq<Remote>>, base: seq<Remote>, r: Remote, seen: seq<string>)
  {
    && (forall name | name in ex ::
          ex[name] != [] && ex[name] == Entries(base, name) + Repeat(r, Occurrences(seen, name)))
    && (forall name | name !in ex :: Entries(base, name) + Repeat(r, Occurrences(seen, name)) == [])
  }

  lemma RegisterStep(ex: map<string, seq<Remote>>, base: seq<Remote>, r: Remote, seen: seq<string>, cur: string)
    requires PartlyRegistered(ex, base, r, seen)
    ensures PartlyRegistered(ex[cur := (if cur in ex then ex[cur] else []) + [r]], base, r, seen + [cur])
  {
    var ex' := ex[cur := (if cur in ex then ex[cur] else []) + [r]];
    assert (seen + [cur])[..|seen|] == seen;
    forall name
      ensures name in ex' ==>
        ex'[name] != [] && ex'[name] == Entries(base, name) + Repeat(r, Occurrences(seen + [cur], name))
      ensures name !in ex' ==> Entries(base, name) + Repeat(r, Occurrences(seen + [cur], name)) == []
    {
      if name == cur {
        var n := Occurrences(seen, name);
        assert Repeat(r, n + 1) == Repeat(r, n) + [r];
      }
    }
  }

  lemma {:induction false} WithoutDistinct(rs: seq<Remote>, dead: Remote)
    requires Distinct(rs)
    ensures Distinct(Without(rs, dead))
  {
    if rs != [] {
      var init, last := rs[..|rs| - 1], rs[|rs| - 1];
      WithoutDistinct(init, dead);
      assert last !in init;
      var w := Without(init, dead);
      assert last !in w;
    }
  }

  /** The ranges while remove(dead) is half way through the keys: the
      visited keys have dead's entries erased (and vanish when empty), the
      others are untouched. */
  ghost predicate PartlyErased(ex: map<string, seq<Remote>>, orig: map<string, seq<Remote>>,
                         todo: set<string>, done: set<string>, dead: Remote)
  {
    && todo + done == orig.Keys && todo !! done
    && ex.Keys <= orig.Keys
    && (forall name | name in todo :: name in ex && name in orig && ex[name] == orig[name])
    && (forall name | name in done && name in orig ::
          (name in ex <==> Without(orig[name], dead) != []) &&
          (name in ex ==> ex[name] == Without(orig[name], dead)))
  }

  lemma EraseStep(ex: map<string, seq<Remote>>, orig: map<string, seq<Remote>>,
                  todo: set<string>, done: set<string>, dead: Remote, k: string)
    requires PartlyErased(ex, orig, todo, done, dead) && k in todo
    ensures var kept := Without(ex[k], dead);
      PartlyErased(if kept == [] then ex - {k} else ex[k := kept], orig, todo - {k}, done + {k}, dead)
  {
  }

  /** Erasing `dead` from every range of an index of `rs` gives the index
      of `rs` without `dead`. */
  lemma ErasedIsIndex(ex: map<string, seq<Remote>>, orig: map<string, seq<Remote>>, rs: seq<Remote>, dead: Remote)
    requires IsIndex(orig, rs) && PartlyErased(ex, orig, {}, orig.Keys, dead)
    ensures IsIndex(ex, Without(rs, dead))
  {
    forall name ensures Entries(Without(rs, dead), name) == Without(Entries(rs, name), dead) {
      EntriesWithout(rs, dead, name);
    }
  }

  class Registry {
    var remotes: seq<Remote>
    var executors: map<string, seq<Remote>>

    /** The remote list holds each remote once, and the executor multimap
        is exactly its index: a name has entries iff some remote
        announced it, listed in registration order. */
    ghost predicate Valid()
      reads this
    {
      Distinct(remotes) && IsIndex(executors, remotes)
    }

    constructor ()
      ensures remotes == [] && executors == map[]
      ensures Valid()
    {
      remotes := [];
      executors := map[];
    }

    /** lookup(name): the equal range of `name`. */
    function Lookup(name: string): (r: seq<Remote>)
      requires Valid()
      reads this
      ensures r == Entries(remotes, name)
      ensures forall x | x in r :: x in remotes && name in x.experiments
    {
      if name in executors then executors[name] else []
    }

    /** register_remote: appends a new Remote and adds one executor entry
        per announced name. */
    method RegisterRemote(stream: StreamId, experiments: seq<string>) returns (r: Remote)
      requires Valid()
      modifies this
      ensures Valid()
      ensures fresh(r) && r.stream == stream && r.experiments == experiments
      ensures remotes == old(remotes) + [r]
    {
      r := new Remote(stream, experiments);
      ghost var base := remotes;
      var ex := executors;
      assert PartlyRegistered(ex, base, r, experiments[..0]);
      var i := 0;
      while i < |experiments|
        invariant 0 <= i <= |experiments|
        invariant PartlyRegistered(ex, base, r, experiments[..i])
        modifies {}
      {
        var cur := experiments[i];
        RegisterStep(ex, base, r, experiments[..i], cur);
        assert experiments[..i + 1] == experiments[..i] + [cur];
        var range := if cur in ex then ex[cur] else [];
        ex := ex[cur := range + [r]];
        i := i + 1;
      }
      assert experiments[..i] == experiments;
      executors := ex;
      remotes := remotes + [r];
      forall name ensures Entries(remotes, name) ==
          Entries(base, name) + Repeat(r, Occurrences(experiments, name)) {
        EntriesAppend(base, r, name);
      }
    }

    /** remove(dead): erases every executor entry of `dead`, then the
        remote itself. */
    method Remove(dead: Remote)
      requires Valid() && dead in remotes
      modifies this
      ensures Valid()
      ensures remotes == Without(old(remotes), dead)
      ensures forall name :: dead !in Lookup(name)
    {
      ghost var orig := executors;
      EraseEntries(dead);
      ErasedIsIndex(executors, orig, remotes, dead);
      WithoutDistinct(remotes, dead);
      remotes := Without(remotes, dead);
    }

    /** The loop of remove(dead) over the executor multimap. */
    method EraseEntries(dead: Remote)
      modifies this
      ensures remotes == old(remotes)
      ensures PartlyErased(executors, old(executors), {}, old(executors).Keys, dead)
    {
      var ex := executors;
      var todo := ex.Keys;
      ghost var done: set<string> := {};
      while todo != {}
        invariant PartlyErased(ex, executors, todo, done, dead)
        modifies {}
        decreases |todo|
      {
        var k :| k in todo;
        EraseStep(ex, executors, todo, done, dead, k);
        var kept := Without(ex[k], dead);
        ex := if kept == [] then ex - {k} else ex[k := kept];
        todo := todo - {k};
        done := done + {k};
      }
      executors := ex;
    }

    /** remove(dead_remotes): removes each in turn. */
    method RemoveAll(deads: seq<Remote>)
      requires Valid()
      requires forall i | 0 <= i < |deads| :: deads[i] in remotes
      requires Distinct(deads)
      modifies this
      ensures Valid()
      ensures remotes == WithoutAll(old(remotes), deads)
      ensures forall x | x in remotes :: x in old(remotes) && x !in deads
      ensures forall x | x in old(remotes) && x !in deads :: x in remotes
      ensures forall name, d | d in deads :: d !in Lookup(name)
    {
      var i := 0;
      while i < |deads|
        invariant 0 <= i <= |deads| && Valid()
        invariant remotes == WithoutAll(old(remotes), deads[..i])
        invariant forall x | x in remotes :: x in old(remotes) && x !in deads[..i]
        invariant forall x | x in old(remotes) && x !in deads[..i] :: x in remotes
      {
        assert deads[i] !in deads[..i];
        Remove(deads[i]);
        assert deads[..i + 1] == deads[..i] + [deads[i]];
        assert deads[..i + 1][..i] == deads[..i];
        i := i + 1;
      }
      assert deads[..i] == deads;
    }
  }
}
