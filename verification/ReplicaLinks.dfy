/** The colon-separated list of replica names of pkg/util/utility.go, as an ordered set of names. */
module ReplicaLinks {
  import opened Wrappers
  import opened Text

  // ---------------------------------------------------------------- the operations on the string

  function Filter(parts: seq<string>, name: string): seq<string> {
    if parts == [] then []
    else if parts[|parts| - 1] == name then Filter(parts[..|parts| - 1], name)
    else Filter(parts[..|parts| - 1], name) + [parts[|parts| - 1]]
  }

  function Add(link: string, name: string): string {
    if name in Split(link, ':') then link else if link == "" then name else link + ":" + name
  }

  function Remove(link: string, name: string): string { Join(Filter(Split(link, ':'), name), ':') }

  function Names(link: string): seq<string> { if link == "" then [] else Split(link, ':') }

  /** A CubridDB's replica link; None when the CR has no CubridRef yet. */
  class CubridDB {
    var replicaLink: Option<string>

    method AddReplicaLink(name: string)
      modifies this
      ensures replicaLink == Some(Add(if old(replicaLink).None? then "" else old(replicaLink).value, name))
    {
      if replicaLink.None? {
        replicaLink := Some("");
      }
      var link := replicaLink.value;
      var links := Split(link, ':');
      for i := 0 to |links|
        invariant name !in links[..i]
        invariant replicaLink == Some(link)
      {
        if links[i] == name {
          return;
        }
      }
      if link == "" {
        replicaLink := Some(name);
      } else {
        replicaLink := Some(link + ":" + name);
      }
    }

    method RemoveReplicaLink(name: string)
      modifies this
      ensures old(replicaLink).None? ==> replicaLink.None?
      ensures old(replicaLink).Some? ==> replicaLink == Some(Remove(old(replicaLink).value, name))
    {
      if replicaLink.None? {
        return;
      }
      var links := Split(replicaLink.value, ':');
      var newLinks: seq<string> := [];
      for i := 0 to |links|
        invariant newLinks == Filter(links[..i], name)
        invariant replicaLink == old(replicaLink)
      {
        assert links[..i + 1][..i] == links[..i];
        if links[i] != name {
          newLinks := newLinks + [links[i]];
        }
      }
      assert links[..|links|] == links;
      replicaLink := Some(Join(newLinks, ':'));
    }

    method SplitReplicaLink() returns (names: seq<string>)
      requires replicaLink.Some?
      ensures Join(names, ':') == replicaLink.value && forall name <- names :: ':' !in name
      ensures names == [] <==> replicaLink.value == ""
      ensures names == Names(replicaLink.value)
    {
      if replicaLink.value == "" {
        return [];
      }
      JoinSplit(replicaLink.value, ':');
      return Split(replicaLink.value, ':');
    }
  }

  // ---------------------------------------------------------------- ordered sets of names

  predicate Name(s: string) { s != "" && ':' !in s }

  ghost predicate OrderedSet(s: seq<string>) {
    && (forall x <- s :: Name(x))
    && forall i, j | 0 <= i < j < |s| :: s[i] != s[j]
  }

  function Insert(s: seq<string>, x: string): seq<string> { if x in s then s else s + [x] }

  lemma {:induction false} FilterMembers(s: seq<string>, x: string)
    ensures forall y :: y in Filter(s, x) <==> y in s && y != x
    ensures |Filter(s, x)| <= |s|
    ensures x !in s ==> Filter(s, x) == s
  {
    if s != [] {
      var init, last := s[..|s| - 1], s[|s| - 1];
      FilterMembers(init, x);
      assert s == init + [last];
    }
  }

  /** Removing a name closes the gap and keeps the order of the others. */
  lemma FilterTakesOut(p: seq<string>, x: string, q: seq<string>)
    requires x !in p && x !in q
    ensures Filter(p + [x] + q, x) == p + q
    decreases |q|
  {
    var s := p + [x] + q;
    if q == [] {
      assert s[..|s| - 1] == p;
      FilterMembers(p, x);
      assert p + q == p;
    } else {
      var init, last := q[..|q| - 1], q[|q| - 1];
      assert s[..|s| - 1] == p + [x] + init && s[|s| - 1] == last;
      FilterTakesOut(p, x, init);
      assert p + q == p + init + [last];
    }
  }

  /** On the string of distinct names: the others stay in their order. */
  lemma RemoveTakesOut(p: seq<string>, x: string, q: seq<string>)
    requires OrderedSet(p + [x] + q)
    ensures Names(Remove(Join(p + [x] + q, ':'), x)) == p + q
  {
    var s := p + [x] + q;
    assert s[|p|] == x;
    assert forall y <- p :: y in s && y != x by {
      forall y <- p ensures y in s && y != x { var i :| 0 <= i < |p| && p[i] == y; assert s[i] == y; }
    }
    assert forall y <- q :: y in s && y != x by {
      forall y <- q ensures y in s && y != x { var i :| 0 <= i < |q| && q[i] == y; assert s[|p| + 1 + i] == y; }
    }
    RemoveIsFilter(s, x);
    FilterTakesOut(p, x, q);
    NamesOfJoin(p + q);
  }

  lemma {:induction false} FilterIsOrderedSet(s: seq<string>, x: string)
    requires OrderedSet(s)
    ensures OrderedSet(Filter(s, x))
  {
    if s != [] {
      var init, last := s[..|s| - 1], s[|s| - 1];
      assert last in s && forall y <- init :: y in s;
      FilterIsOrderedSet(init, x);
      FilterMembers(init, x);
      assert last !in init;
    }
  }

  lemma NamesOfJoin(s: seq<string>)
    requires forall x <- s :: Name(x)
    ensures Names(Join(s, ':')) == s
    ensures s == [] <==> Join(s, ':') == ""
  {
    if s != [] {
      assert s[0] in s;
      SplitJoin(s, ':');
      assert s[0] != "";
    }
  }

  /** Adding a name to the string of an ordered set is inserting it at the end. */
  lemma AddIsInsert(s: seq<string>, x: string)
    requires OrderedSet(s) && Name(x)
    ensures Add(Join(s, ':'), x) == Join(Insert(s, x), ':') && OrderedSet(Insert(s, x))
  {
    NamesOfJoin(s);
    if s == [] {
      assert Split("", ':') == [""];
    } else if x !in s {
      JoinConcat(s, [x], ':');
    }
  }

  lemma RemoveIsFilter(s: seq<string>, x: string)
    requires OrderedSet(s) && Name(x)
    ensures Remove(Join(s, ':'), x) == Join(Filter(s, x), ':') && OrderedSet(Filter(s, x))
  {
    NamesOfJoin(s);
    FilterIsOrderedSet(s, x);
    if s == [] {
      assert Split("", ':') == [""];
      FilterMembers([""], x);
      assert Join([""], ':') == "";
    }
  }

  datatype Op = AddOp(name: string) | RemoveOp(name: string)

  function RunLink(link: string, ops: seq<Op>): string
    decreases |ops|
  {
    if ops == [] then link
    else RunLink(if ops[0].AddOp? then Add(link, ops[0].name) else Remove(link, ops[0].name), ops[1..])
  }

  function RunSet(s: seq<string>, ops: seq<Op>): seq<string>
    decreases |ops|
  {
    if ops == [] then s
    else RunSet(if ops[0].AddOp? then Insert(s, ops[0].name) else Filter(s, ops[0].name), ops[1..])
  }

  lemma {:induction false} RunRefines(s: seq<string>, ops: seq<Op>)
    requires OrderedSet(s) && forall op <- ops :: Name(op.name)
    ensures RunLink(Join(s, ':'), ops) == Join(RunSet(s, ops), ':') && OrderedSet(RunSet(s, ops))
    decreases |ops|
  {
    if ops != [] {
      var x := ops[0].name;
      assert ops[0] in ops && forall op <- ops[1..] :: op in ops;
      AddIsInsert(s, x);
      RemoveIsFilter(s, x);
      RunRefines(if ops[0].AddOp? then Insert(s, x) else Filter(s, x), ops[1..]);
    }
  }

  /** For any sequence of adds and removes from the empty link, splitting the string gives the
      distinct names in insertion order. */
  lemma LinkIsOrderedSet(ops: seq<Op>)
    requires forall op <- ops :: Name(op.name)
    ensures Names(RunLink("", ops)) == RunSet([], ops) && OrderedSet(RunSet([], ops))
  {
    RunRefines([], ops);
    NamesOfJoin(RunSet([], ops));
  }

  /** Adding an absent name and removing it again restores the string. */
  lemma RemoveUndoesAdd(ops: seq<Op>, x: string)
    requires (forall op <- ops :: Name(op.name)) && Name(x) && x !in Names(RunLink("", ops))
    ensures Remove(Add(RunLink("", ops), x), x) == RunLink("", ops)
  {
    var s := RunSet([], ops);
    RunRefines([], ops);
    NamesOfJoin(s);
    AddIsInsert(s, x);
    RemoveIsFilter(s + [x], x);
    FilterMembers(s, x);
    assert (s + [x])[..|s|] == s;
  }
}
