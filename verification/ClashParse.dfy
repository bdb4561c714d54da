/** Reading the nodes of a Clash configuration. Repeated names are made distinct with a number; the
    module says exactly when that works. */
module ClashParse {
  import opened Common
  import Text

  datatype Node = Node(name: string, kind: string, server: string, port: int, params: string)

  // ---------- Names ----------

  function Suffixed(name: string, n: nat): string { name + "-" + Text.Digits(n) }

  function Occurrences(names: seq<string>, name: string): nat {
    if names == [] then 0
    else Occurrences(names[..|names| - 1], name) + if names[|names| - 1] == name then 1 else 0
  }

  /** A name that is out already gets a number, one more than how often it is out. */
  function NextName(out: seq<string>, name: string): string {
    if name in out then Suffixed(name, Occurrences(out, name) + 1) else name
  }

  /** The names given out, one after the other. */
  function GivenOut(names: seq<string>): (out: seq<string>)
    ensures |out| == |names|
  {
    if names == [] then []
    else
      var out := GivenOut(names[..|names| - 1]);
      out + [NextName(out, names[|names| - 1])]
  }

  lemma {:induction false} OccurrencesFacts(names: seq<string>, name: string)
    ensures Occurrences(names, name) == 0 <==> name !in names
    ensures NoRepeat(names) ==> Occurrences(names, name) <= 1
  {
    if names != [] {
      var init := names[..|names| - 1];
      OccurrencesFacts(init, name);
      assert names == init + [names[|names| - 1]];
      if NoRepeat(names) && names[|names| - 1] == name {
        assert name !in init;
      }
    }
  }

  // Told by the names of the file alone: which positions do not keep their name, and which names are out.

  /** Position `j` does not keep its name: an earlier one has it, or was moved to it. */
  predicate Displaced(names: seq<string>, j: nat)
    requires j < |names|
    decreases j
  {
    exists i: nat | i < j :: names[i] == names[j] || (Suffixed(names[i], 2) == names[j] && Displaced(names, i))
  }

  /** Name `x` is out once position `i` is done. */
  predicate Fills(names: seq<string>, i: nat, x: string)
    requires i < |names|
  {
    names[i] == x || (Suffixed(names[i], 2) == x && Displaced(names, i))
  }

  predicate FilledBefore(names: seq<string>, j: nat, x: string)
    requires j <= |names|
  {
    exists i: nat :: i < j && Fills(names, i, x)
  }

  /** Position `j` finds both its name and the `-2` form of it taken. */
  predicate MeetsOwnForm(names: seq<string>, j: nat)
    requires j < |names|
  {
    FilledBefore(names, j, names[j]) && FilledBefore(names, j, Suffixed(names[j], 2))
  }

  lemma DisplacedIsFilled(names: seq<string>, j: nat)
    requires j < |names|
    ensures Displaced(names, j) <==> FilledBefore(names, j, names[j])
  {
    if Displaced(names, j) {
      var i: nat :| i < j && (names[i] == names[j] || (Suffixed(names[i], 2) == names[j] && Displaced(names, i)));
      assert Fills(names, i, names[j]);
    }
  }

  lemma OneMoreFilled(names: seq<string>, n: nat, x: string)
    requires n < |names|
    ensures FilledBefore(names, n + 1, x) <==> FilledBefore(names, n, x) || Fills(names, n, x)
  {
  }

  lemma NextWhenDistinct(out: seq<string>, name: string)
    requires NoRepeat(out)
    ensures NextName(out, name) == if name in out then Suffixed(name, 2) else name
  {
    OccurrencesFacts(out, name);
  }

  /** As long as the names given out are distinct, those of the first `n` positions are the ones filled. */
  lemma {:induction false} GivenOutIsFilled(names: seq<string>, n: nat, x: string)
    requires n <= |names| && NoRepeat(GivenOut(names[..n]))
    ensures x in GivenOut(names[..n]) <==> FilledBefore(names, n, x)
  {
    if n > 0 {
      var out, name := GivenOut(names[..n - 1]), names[n - 1];
      PrefixSnoc(names, n);
      NextWhenDistinct(out, name);
      GivenOutIsFilled(names, n - 1, x);
      GivenOutIsFilled(names, n - 1, name);
      FilledStep(names, n - 1, out, x);
    }
  }

  lemma FilledStep(names: seq<string>, n: nat, out: seq<string>, x: string)
    requires n < |names| && (x in out <==> FilledBefore(names, n, x))
    requires names[n] in out <==> FilledBefore(names, n, names[n])
    ensures var y := if names[n] in out then Suffixed(names[n], 2) else names[n];
      x in out + [y] <==> FilledBefore(names, n + 1, x)
  {
    DisplacedIsFilled(names, n);
    OneMoreFilled(names, n, x);
  }

  lemma PrefixSnoc(names: seq<string>, n: nat)
    requires 0 < n <= |names|
    ensures var out, y := GivenOut(names[..n - 1]), NextName(GivenOut(names[..n - 1]), names[n - 1]);
      GivenOut(names[..n]) == out + [y] && (NoRepeat(out + [y]) <==> NoRepeat(out) && y !in out)
  {
    assert names[..n][..n - 1] == names[..n - 1];
    DistinctSnoc(GivenOut(names[..n - 1]), NextName(GivenOut(names[..n - 1]), names[n - 1]));
  }

  lemma LastMeets(names: seq<string>, n: nat)
    requires 0 < n <= |names| && NoRepeat(GivenOut(names[..n - 1]))
    ensures NextName(GivenOut(names[..n - 1]), names[n - 1]) in GivenOut(names[..n - 1]) <==> MeetsOwnForm(names, n - 1)
  {
    NextWhenDistinct(GivenOut(names[..n - 1]), names[n - 1]);
    GivenOutIsFilled(names, n - 1, names[n - 1]);
    GivenOutIsFilled(names, n - 1, Suffixed(names[n - 1], 2));
  }

  lemma {:induction false} DistinctPrefix(names: seq<string>, n: nat)
    requires n <= |names|
    ensures NoRepeat(GivenOut(names[..n])) <==> forall j: nat :: j < n ==> !MeetsOwnForm(names, j)
  {
    if n > 0 {
      PrefixSnoc(names, n);
      DistinctPrefix(names, n - 1);
      if NoRepeat(GivenOut(names[..n - 1])) {
        LastMeets(names, n);
      }
    }
  }

  /** The names given out are distinct exactly when no position finds both its name and the `-2` form of
      it taken by the positions before it. */
  lemma DistinctExactly(names: seq<string>)
    ensures NoRepeat(GivenOut(names)) <==> forall j: nat :: j < |names| ==> !MeetsOwnForm(names, j)
  {
    DistinctPrefix(names, |names|);
    assert names[..|names|] == names;
  }

  lemma DistinctSnoc(out: seq<string>, x: string)
    ensures NoRepeat(out + [x]) <==> NoRepeat(out) && x !in out
  {
    var all := out + [x];
    assert forall i :: 0 <= i < |out| ==> all[i] == out[i];
    assert all[|out|] == x;
  }

  /** The third of three equal names gets the second one's number. */
  lemma ThreeOfAKindCollide(a: string)
    ensures GivenOut([a, a, a]) == [a, Suffixed(a, 2), Suffixed(a, 2)]
  {
    var one, two := [a], [a, a];
    assert one[..0] == [] && two[..1] == one && [a, a, a][..2] == two;
    assert GivenOut(one) == [a];
    assert Occurrences([a], a) == 1 by { assert [a][..0] == []; }
    assert GivenOut(two) == [a, Suffixed(a, 2)];
    assert |Suffixed(a, 2)| > |a|;
    var out := [a, Suffixed(a, 2)];
    assert out[..1] == [a];
    assert Occurrences(out, a) == 1;
  }

  ghost predicate AtMostPairs(names: seq<string>) {
    forall i, j, k :: 0 <= i < j < k < |names| ==> !(names[i] == names[j] == names[k])
  }

  ghost predicate Repeated(names: seq<string>, x: string) {
    exists i, j :: 0 <= i < j < |names| && names[i] == names[j] == x
  }

  /** No repeated name stands in the list together with its own `-2` form. */
  ghost predicate PairsStandAlone(names: seq<string>) {
    forall x :: Repeated(names, x) ==> Suffixed(x, 2) !in names
  }

  /** In such a list only a repeated name is displaced. */
  lemma {:induction false} DisplacedIsRepeated(names: seq<string>, j: nat) returns (i: nat)
    requires j < |names| && PairsStandAlone(names) && Displaced(names, j)
    ensures i < j && names[i] == names[j]
    decreases j
  {
    i :| i < j && (names[i] == names[j] || (Suffixed(names[i], 2) == names[j] && Displaced(names, i)));
    if names[i] != names[j] {
      var k := DisplacedIsRepeated(names, i);
      assert Repeated(names, names[i]);
    }
  }

  /** Enough for distinct names, and visible at once: no name three times, and no repeated name together
      with its own `-2` form. */
  lemma DistinctIfPairs(names: seq<string>)
    requires AtMostPairs(names) && PairsStandAlone(names)
    ensures NoRepeat(GivenOut(names))
  {
    forall j: nat | j < |names| ensures !MeetsOwnForm(names, j) {
      if MeetsOwnForm(names, j) {
        DisplacedIsFilled(names, j);
        var i := DisplacedIsRepeated(names, j);
        assert Repeated(names, names[j]);
        var k: nat :| k < j && Fills(names, k, Suffixed(names[j], 2));
        SuffixedInjective(names[k], names[j]);
        var first := DisplacedIsRepeated(names, k);
      }
    }
    DistinctExactly(names);
  }

  lemma SuffixedInjective(x: string, y: string)
    requires Suffixed(x, 2) == Suffixed(y, 2)
    ensures x == y
  {
    assert Suffixed(x, 2)[..|x|] == x && Suffixed(y, 2)[..|y|] == y;
  }

  // ---------- Parsing ----------

  /** An entry of the `proxies` list, decoded. */
  datatype Entry = NotAMap | Fields(node: Node)

  /** What makes an entry a usable node. */
  predicate Usable(n: Node, knownKinds: set<string>) {
    n.name != "" && n.server != "" && 0 < n.port <= 65535 && n.kind in knownKinds
  }

  predicate IsTaken(e: Entry, knownKinds: set<string>, isInfo: string -> bool) {
    e.Fields? && Usable(e.node, knownKinds) && !isInfo(e.node.name)
  }

  /** The nodes that are taken, before their names are made distinct. */
  function Taken(entries: seq<Entry>, knownKinds: set<string>, isInfo: string -> bool): seq<Node> {
    if entries == [] then []
    else
      var init, e := Taken(entries[..|entries| - 1], knownKinds, isInfo), entries[|entries| - 1];
      if IsTaken(e, knownKinds, isInfo) then init + [e.node] else init
  }

  /** The subscription notices among the entries: complete, but only a message in node form. */
  function Notices(entries: seq<Entry>, knownKinds: set<string>, isInfo: string -> bool): seq<string> {
    if entries == [] then []
    else
      var init, e := Notices(entries[..|entries| - 1], knownKinds, isInfo), entries[|entries| - 1];
      if e.Fields? && Usable(e.node, knownKinds) && isInfo(e.node.name) then init + [e.node.name] else init
  }

  /** The positions of a list that are taken in, in order: those and no others. */
  ghost predicate Picks(entries: seq<Entry>, at: seq<nat>, picked: seq<Node>) {
    && |at| == |picked| && (forall i, j :: 0 <= i < j < |at| ==> at[i] < at[j])
    && (forall i :: 0 <= i < |at| ==> at[i] < |entries| && entries[at[i]] == Fields(picked[i]))
  }

  lemma PicksFurther(entries: seq<Entry>, e: Entry, at: seq<nat>, picked: seq<Node>, n: Node)
    requires Picks(entries, at, picked)
    ensures Picks(entries + [e], at, picked)
    ensures e == Fields(n) ==> Picks(entries + [e], at + [|entries|], picked + [n])
  {
    var all := entries + [e];
    assert forall k :: 0 <= k < |entries| ==> all[k] == entries[k];
  }

  /** A complete entry: named, with a server, a port and a kind that is known. */
  predicate Complete(e: Entry, knownKinds: set<string>) {
    && e.Fields? && |e.node.name| > 0 && |e.node.server| > 0 && 1 <= e.node.port <= 65535 && e.node.kind in knownKinds
  }

  /** The nodes taken are the complete entries that are no notices, each at its place. */
  lemma {:induction false} TakenInFull(entries: seq<Entry>, knownKinds: set<string>, isInfo: string -> bool)
    returns (at: seq<nat>)
    ensures Picks(entries, at, Taken(entries, knownKinds, isInfo))
    ensures forall k: nat :: k in at <==>
      k < |entries| && Complete(entries[k], knownKinds) && !isInfo(entries[k].node.name)
  {
    at := [];
    if entries != [] {
      var init, e := entries[..|entries| - 1], entries[|entries| - 1];
      at := TakenInFull(init, knownKinds, isInfo);
      assert entries == init + [e];
      var n := if e.Fields? then e.node else Node("", "", "", 0, "");
      PicksFurther(init, e, at, Taken(init, knownKinds, isInfo), n);
      if IsTaken(e, knownKinds, isInfo) {
        at := at + [|init|];
      }
    }
  }

  /** The notices are the names of the other complete entries, in order. */
  lemma {:induction false} NoticesInFull(entries: seq<Entry>, knownKinds: set<string>, isInfo: string -> bool)
    returns (at: seq<nat>, nodes: seq<Node>)
    ensures Picks(entries, at, nodes)
    ensures |nodes| == |Notices(entries, knownKinds, isInfo)|
    ensures forall i :: 0 <= i < |nodes| ==> nodes[i].name == Notices(entries, knownKinds, isInfo)[i]
    ensures forall k: nat :: k in at <==>
      k < |entries| && Complete(entries[k], knownKinds) && isInfo(entries[k].node.name)
  {
    at, nodes := [], [];
    if entries != [] {
      var init, e := entries[..|entries| - 1], entries[|entries| - 1];
      at, nodes := NoticesInFull(init, knownKinds, isInfo);
      assert entries == init + [e];
      var n := if e.Fields? then e.node else Node("", "", "", 0, "");
      PicksFurther(init, e, at, nodes, n);
      if e.Fields? && Usable(e.node, knownKinds) && isInfo(e.node.name) {
        at, nodes := at + [|init|], nodes + [e.node];
      }
    }
  }

  lemma LastEntry(entries: seq<Entry>, k: nat)
    requires k < |entries|
    ensures entries[..k + 1][..k] == entries[..k] && entries[..k + 1][k] == entries[k]
  {
  }

  function Names(nodes: seq<Node>): seq<string> {
    if nodes == [] then [] else Names(nodes[..|nodes| - 1]) + [nodes[|nodes| - 1].name]
  }

  /** The taken nodes under the names given out. */
  function Renamed(taken: seq<Node>): seq<Node> {
    if taken == [] then []
    else
      var done, n := Renamed(taken[..|taken| - 1]), taken[|taken| - 1];
      done + [n.(name := NextName(Names(done), n.name))]
  }

  lemma Snoc(taken: seq<Node>, n: Node)
    ensures Names(taken + [n]) == Names(taken) + [n.name]
    ensures Renamed(taken + [n]) == Renamed(taken) + [n.(name := NextName(Names(Renamed(taken)), n.name))]
    ensures GivenOut(Names(taken) + [n.name]) == GivenOut(Names(taken)) + [NextName(GivenOut(Names(taken)), n.name)]
  {
    assert (taken + [n])[..|taken|] == taken;
    assert (Names(taken) + [n.name])[..|Names(taken)|] == Names(taken);
  }

  /** Renaming changes nothing but the names, and those become the names given out. */
  lemma {:induction false} RenamedFacts(taken: seq<Node>)
    ensures |Renamed(taken)| == |taken| && Names(Renamed(taken)) == GivenOut(Names(taken))
    ensures forall i :: 0 <= i < |taken| ==> Renamed(taken)[i] == taken[i].(name := Renamed(taken)[i].name)
  {
    if taken != [] {
      var init, n := taken[..|taken| - 1], taken[|taken| - 1];
      assert taken == init + [n];
      RenamedFacts(init);
      Snoc(init, n);
      Snoc(Renamed(init), n.(name := NextName(Names(Renamed(init)), n.name)));
    }
  }

  /** The counters hold how often each name is out. */
  ghost predicate Counts(seen: map<string, nat>, names: seq<string>) {
    forall x :: (if x in seen then seen[x] else 0) == Occurrences(names, x) && (x in seen ==> seen[x] > 0)
  }

  lemma CountsSnoc(seen: map<string, nat>, names: seq<string>, x: string)
    requires Counts(seen, names)
    ensures Counts(seen[x := (if x in seen then seen[x] else 0) + 1], names + [x])
  {
    assert (names + [x])[..|names|] == names;
  }

  lemma CountedName(seen: map<string, nat>, names: seq<string>, x: string)
    requires Counts(seen, names)
    ensures NextName(names, x) == if x in seen then Suffixed(x, seen[x] + 1) else x
  {
    OccurrencesFacts(names, x);
  }

  /** Appends one node under the next name. */
  method Append(nodes: seq<Node>, seen: map<string, nat>, n: Node) returns (out: seq<Node>, seen': map<string, nat>)
    requires Counts(seen, Names(nodes))
    ensures out == nodes + [n.(name := NextName(Names(nodes), n.name))] && Counts(seen', Names(out))
  {
    var node := n;
    CountedName(seen, Names(nodes), n.name);
    if node.name in seen {
      node := node.(name := Suffixed(node.name, seen[node.name] + 1));
    }
    CountsSnoc(seen, Names(nodes), node.name);
    Snoc(nodes, node);
    seen' := seen[node.name := (if node.name in seen then seen[node.name] else 0) + 1];
    out := nodes + [node];
  }

  /** The usable nodes in order, under names that are given out as `GivenOut` says, and the notices. */
  method Parse(entries: seq<Entry>, knownKinds: set<string>, isInfo: string -> bool)
      returns (nodes: seq<Node>, infos: seq<string>)
    ensures nodes == Renamed(Taken(entries, knownKinds, isInfo))
    ensures Names(nodes) == GivenOut(Names(Taken(entries, knownKinds, isInfo)))
    ensures infos == Notices(entries, knownKinds, isInfo)
  {
    nodes, infos := [], [];
    var seen: map<string, nat> := map[];
    for k := 0 to |entries|
      invariant nodes == Renamed(Taken(entries[..k], knownKinds, isInfo))
      invariant infos == Notices(entries[..k], knownKinds, isInfo)
      invariant Counts(seen, Names(nodes))
    {
      LastEntry(entries, k);
      if entries[k].NotAMap? {
        continue;
      }
      var node := entries[k].node;
      if !Usable(node, knownKinds) {
        continue;
      }
      if isInfo(node.name) {
        infos := infos + [node.name];
        continue;
      }
      Snoc(Taken(entries[..k], knownKinds, isInfo), node);
      nodes, seen := Append(nodes, seen, node);
    }
    assert entries[..|entries|] == entries;
    RenamedFacts(Taken(entries, knownKinds, isInfo));
  }
}
