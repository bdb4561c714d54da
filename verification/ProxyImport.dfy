/** Importing parsed nodes into the node table: a node whose name is known is skipped when the stored
    row says the same and rewritten otherwise; a new name becomes a new row. */
module ProxyImport {
  import opened Common
  import opened ClashParse

  /** Sealing of node parameters: what was sealed opens to itself; a row sealed with another key does not open. */
  datatype Cipher = Cipher(seal: string -> string, open: string -> Option<string>)

  ghost predicate Faithful(c: Cipher) { forall x :: c.open(c.seal(x)) == Some(x) }

  /** A row of the node table; the name is its unique key. */
  datatype NodeRow = NodeRow(id: int, kind: string, server: string, port: int, params: string, source: string,
      subId: int, enabled: bool)

  /** The stored row says what the node says. */
  predicate Matches(c: Cipher, row: NodeRow, n: Node) {
    row.kind == n.kind && row.server == n.server && row.port == n.port && c.open(row.params) == Some(n.params)
  }

  datatype State = State(rows: map<string, NodeRow>, existing: map<string, NodeRow>, nextId: int, imported: nat,
      updated: nat, skipped: nat)

  function Rewritten(c: Cipher, row: NodeRow, n: Node, source: string, subId: int): NodeRow {
    var r := row.(kind := n.kind, server := n.server, port := n.port, params := c.seal(n.params));
    if subId > 0 then r.(subId := subId, source := source) else r
  }

  /** One node: `existing` is what was read at the start, plus the rows created since. */
  function Step(c: Cipher, s: State, n: Node, source: string, subId: int): State
    requires s.existing.Keys == s.rows.Keys
  {
    if n.name in s.existing then
      if Matches(c, s.existing[n.name], n) then s.(skipped := s.skipped + 1)
      else s.(rows := s.rows[n.name := Rewritten(c, s.rows[n.name], n, source, subId)], updated := s.updated + 1)
    else
      var row := NodeRow(s.nextId, n.kind, n.server, n.port, c.seal(n.params), source, subId, true);
      s.(rows := s.rows[n.name := row], existing := s.existing[n.name := row], nextId := s.nextId + 1,
        imported := s.imported + 1)
  }

  function Start(rows: map<string, NodeRow>, nextId: int): State { State(rows, rows, nextId, 0, 0, 0) }

  function ImportAll(c: Cipher, s: State, nodes: seq<Node>, source: string, subId: int): (r: State)
    requires s.existing.Keys == s.rows.Keys
    ensures r.existing.Keys == r.rows.Keys
  {
    if nodes == [] then s
      else Step(c, ImportAll(c, s, nodes[..|nodes| - 1], source, subId), nodes[|nodes| - 1], source, subId)
  }

  class NodeTable {
    const cipher: Cipher
    var rows: map<string, NodeRow>
    var nextId: int

    constructor (cipher: Cipher)
      ensures this.cipher == cipher && rows == map[] && nextId == 1
    {
      this.cipher := cipher;
      rows, nextId := map[], 1;
    }

    /** Reconciles the table with the nodes; every node is imported, updated or skipped. */
    method ProxyNodeImport(nodes: seq<Node>, source: string, subId: int)
        returns (imported: nat, updated: nat, skipped: nat)
      modifies this
      ensures var s := ImportAll(cipher, Start(old(rows), old(nextId)), nodes, source, subId);
        s == State(rows, s.existing, nextId, imported, updated, skipped)
      ensures imported + updated + skipped == |nodes|
    {
      imported, updated, skipped := 0, 0, 0;
      var existing := rows;
      for i := 0 to |nodes|
        invariant State(rows, existing, nextId, imported, updated, skipped)
                  == ImportAll(cipher, Start(old(rows), old(nextId)), nodes[..i], source, subId)
        invariant imported + updated + skipped == i
      {
        assert nodes[..i + 1][..i] == nodes[..i];
        var n := nodes[i];
        if n.name in existing {
          var row := existing[n.name];
          var same := row.kind == n.kind && row.server == n.server && row.port == n.port;
          var plain := cipher.open(row.params);
          if plain.Some? && same && plain.value == n.params {
            skipped := skipped + 1;
            continue;
          }
          rows := rows[n.name := Rewritten(cipher, rows[n.name], n, source, subId)];
          updated := updated + 1;
          continue;
        }
        var row := NodeRow(nextId, n.kind, n.server, n.port, cipher.seal(n.params), source, subId, true);
        nextId := nextId + 1;
        rows := rows[n.name := row];
        existing := existing[n.name := row];
        imported := imported + 1;
      }
      assert nodes[..|nodes|] == nodes;
    }
  }

  // ---------- What becomes of one name ----------

  /** The last node of name `x` that does not say what `known` says. */
  function LastDiffering(c: Cipher, known: NodeRow, nodes: seq<Node>, x: string): Option<Node> {
    if nodes == [] then None
    else
      var last := nodes[|nodes| - 1];
      if last.name == x && !Matches(c, known, last) then Some(last)
      else LastDiffering(c, known, nodes[..|nodes| - 1], x)
  }

  function FirstOf(nodes: seq<Node>, x: string): Option<Node> {
    if nodes == [] then None
    else
      var first := FirstOf(nodes[..|nodes| - 1], x);
      if first.Some? then first
      else if nodes[|nodes| - 1].name == x then Some(nodes[|nodes| - 1]) else None
  }

  function LastOf(nodes: seq<Node>, x: string): Option<Node> {
    if nodes == [] then None
    else if nodes[|nodes| - 1].name == x then Some(nodes[|nodes| - 1])
    else LastOf(nodes[..|nodes| - 1], x)
  }

  /** What is known of a name while its nodes are handled: the row it had at the start or, for a new
      name, the row its first node made. */
  predicate IsKnown(c: Cipher, rows: map<string, NodeRow>, nextId: int, r: State, nodes: seq<Node>, x: string,
      source: string, subId: int) {
    if x in rows then x in r.existing && r.existing[x] == rows[x]
    else
      var first := FirstOf(nodes, x);
      && (x in r.existing <==> first.Some?)
      && (x in r.existing && first.Some? ==>
            var n, id := first.value, r.existing[x].id;
            && nextId <= id < r.nextId
            && r.existing[x] == NodeRow(id, n.kind, n.server, n.port, c.seal(n.params), source, subId, true))
  }

  /** A row that a node was written into: content as in the node, number and switch as they were, and another
      source only with a subscription. */
  predicate RewrittenBy(c: Cipher, before: NodeRow, after: NodeRow, n: Node, source: string, subId: int) {
    && after.id == before.id && after.enabled == before.enabled
    && after.kind == n.kind && after.server == n.server && after.port == n.port
    && c.open(after.params) == Some(n.params)
    && (subId > 0 ==> after.subId == subId && after.source == source)
    && (subId <= 0 ==> after.subId == before.subId && after.source == before.source)
  }

  /** The row of a name says what the last node of it says that differs from what is known, and is what
      is known when there is none. */
  predicate RowLaw(c: Cipher, rows: map<string, NodeRow>, nextId: int, r: State, nodes: seq<Node>, x: string,
      source: string, subId: int) {
    && IsKnown(c, rows, nextId, r, nodes, x, source, subId)
    && (x in r.rows <==> x in r.existing)
    && (x in r.rows && x in r.existing ==>
          var n := LastDiffering(c, r.existing[x], nodes, x);
          && (n.Some? ==> RewrittenBy(c, r.existing[x], r.rows[x], n.value, source, subId))
          && (n.None? ==> r.rows[x] == r.existing[x]))
  }

  lemma {:induction false} NoneOfName(c: Cipher, known: NodeRow, nodes: seq<Node>, x: string)
    requires FirstOf(nodes, x) == None
    ensures LastDiffering(c, known, nodes, x) == None && LastOf(nodes, x) == None
  {
    if nodes != [] {
      NoneOfName(c, known, nodes[..|nodes| - 1], x);
    }
  }

  lemma OneMoreNode(c: Cipher, known: NodeRow, nodes: seq<Node>, n: Node, x: string)
    ensures LastDiffering(c, known, nodes + [n], x) ==
      if n.name == x && !Matches(c, known, n) then Some(n) else LastDiffering(c, known, nodes, x)
    ensures FirstOf(nodes + [n], x) ==
      if FirstOf(nodes, x).Some? then FirstOf(nodes, x) else if n.name == x then Some(n) else None
  {
    assert (nodes + [n])[..|nodes|] == nodes;
  }

  lemma RowLawStep(c: Cipher, rows: map<string, NodeRow>, nextId: int, s: State, nodes: seq<Node>, n: Node, x: string,
      source: string, subId: int)
    requires Faithful(c) && s.existing.Keys == s.rows.Keys && nextId <= s.nextId
    requires RowLaw(c, rows, nextId, s, nodes, x, source, subId)
    ensures RowLaw(c, rows, nextId, Step(c, s, n, source, subId), nodes + [n], x, source, subId)
  {
    var r := Step(c, s, n, source, subId);
    if x in r.existing {
      OneMoreNode(c, r.existing[x], nodes, n, x);
      if x !in s.existing {
        assert c.open(c.seal(n.params)) == Some(n.params);
        NoneOfName(c, r.existing[x], nodes, x);
      }
    } else {
      OneMoreNode(c, NodeRow(0, "", "", 0, "", "", 0, false), nodes, n, x);
    }
  }

  /** One name over a whole import; a name of no node keeps its row, or stays without one. */
  lemma {:induction false} RowsExactly(c: Cipher, rows: map<string, NodeRow>, nextId: int, nodes: seq<Node>, x: string,
      source: string, subId: int)
    requires Faithful(c)
    ensures RowLaw(c, rows, nextId, ImportAll(c, Start(rows, nextId), nodes, source, subId), nodes, x, source, subId)
    ensures ImportAll(c, Start(rows, nextId), nodes, source, subId).nextId >= nextId
  {
    if nodes != [] {
      var init, n := nodes[..|nodes| - 1], nodes[|nodes| - 1];
      RowsExactly(c, rows, nextId, init, x, source, subId);
      RowLawStep(c, rows, nextId, ImportAll(c, Start(rows, nextId), init, source, subId), init, n, x, source, subId);
      assert nodes == init + [n];
    }
  }

  lemma {:induction false} LastDifferingFacts(c: Cipher, known: NodeRow, nodes: seq<Node>, x: string)
    ensures var last, n := LastOf(nodes, x), LastDiffering(c, known, nodes, x);
      && (n.Some? ==> n.value.name == x && !Matches(c, known, n.value) && last.Some?)
      && (last.Some? && !Matches(c, known, last.value) ==> n == last)
      && (last.Some? && n.None? ==> Matches(c, known, last.value))
  {
    if nodes != [] {
      LastDifferingFacts(c, known, nodes[..|nodes| - 1], x);
    }
  }

  /** A row says what the last node of its name says exactly when that node differs from what is known, or
      no node of the name does: what is known is not brought up to date in between. */
  lemma LastWinsExactly(c: Cipher, rows: map<string, NodeRow>, nextId: int, nodes: seq<Node>, x: string, source: string,
      subId: int)
    requires Faithful(c) && LastOf(nodes, x).Some?
    ensures var r, last := ImportAll(c, Start(rows, nextId), nodes, source, subId), LastOf(nodes, x).value;
      && x in r.rows && x in r.existing
      && (Matches(c, r.rows[x], last) <==>
        !Matches(c, r.existing[x], last) || LastDiffering(c, r.existing[x], nodes, x) == None)
  {
    RowsExactly(c, rows, nextId, nodes, x, source, subId);
    var r := ImportAll(c, Start(rows, nextId), nodes, source, subId);
    if x !in r.existing {
      NoneOfName(c, NodeRow(0, "", "", 0, "", "", 0, false), nodes, x);
    }
    LastDifferingFacts(c, r.existing[x], nodes, x);
    var n := LastDiffering(c, r.existing[x], nodes, x);
    if n.Some? {
      assert c.open(c.seal(n.value.params)) == Some(n.value.params);
    }
  }

  /** Content 1, content 2, content 1 under one new name: content 2 stays. */
  lemma MiddleStays(c: Cipher, one: Node, two: Node, source: string, subId: int)
    requires Faithful(c) && one.name == two.name && one.server != two.server
    ensures var r := ImportAll(c, Start(map[], 1), [one, two, one], source, subId);
      one.name in r.rows && r.rows[one.name].server == two.server
  {
    var nodes, x := [one, two, one], one.name;
    assert nodes[..2] == [one, two] && [one, two][..1] == [one] && [one][..0] == [];
    RowsExactly(c, map[], 1, nodes, x, source, subId);
    assert c.open(c.seal(one.params)) == Some(one.params);
    assert FirstOf(nodes, x) == Some(one) by { assert FirstOf([one], x) == Some(one); }
    var known := ImportAll(c, Start(map[], 1), nodes, source, subId).existing[x];
    assert LastDiffering(c, known, [one, two], x) == Some(two);
    assert LastDiffering(c, known, nodes, x) == Some(two);
  }

  // ---------- Importing twice ----------

  ghost predicate SameContent(x: Node, y: Node) { x.(name := "") == y.(name := "") }

  /** Nodes of one name agree in everything else. */
  ghost predicate Agree(nodes: seq<Node>) {
    forall i, j :: 0 <= i < |nodes| && 0 <= j < |nodes| && nodes[i].name == nodes[j].name ==>
      SameContent(nodes[i], nodes[j])
  }

  /** Some node of this name is matched by the row. */
  ghost predicate WrittenBy(c: Cipher, row: NodeRow, nodes: seq<Node>, x: string) {
    exists i :: 0 <= i < |nodes| && nodes[i].name == x && Matches(c, row, nodes[i])
  }

  ghost predicate Named(nodes: seq<Node>, x: string) { exists i :: 0 <= i < |nodes| && nodes[i].name == x }

  /** After an import: a name of a node has a row that a node of that name matches, and a row that is
      no longer what was known of it was written by such a node. */
  ghost predicate RowRight(c: Cipher, r: State, nodes: seq<Node>, x: string) {
    && (Named(nodes, x) ==> x in r.rows && WrittenBy(c, r.rows[x], nodes, x))
    && (x in r.rows ==> x in r.existing && (r.rows[x] == r.existing[x] || WrittenBy(c, r.rows[x], nodes, x)))
  }

  lemma WrittenBySnoc(c: Cipher, row: NodeRow, nodes: seq<Node>, n: Node, x: string)
    ensures WrittenBy(c, row, nodes + [n], x) <==> WrittenBy(c, row, nodes, x) || (n.name == x && Matches(c, row, n))
    ensures Named(nodes + [n], x) <==> Named(nodes, x) || n.name == x
  {
    var all := nodes + [n];
    assert all[|nodes|] == n && forall i :: 0 <= i < |nodes| ==> all[i] == nodes[i];
  }

  lemma {:induction false} ImportedRows(c: Cipher, s: State, nodes: seq<Node>, source: string, subId: int)
    requires Faithful(c) && s.existing == s.rows
    ensures forall x :: RowRight(c, ImportAll(c, s, nodes, source, subId), nodes, x)
  {
    if nodes != [] {
      var init, n := nodes[..|nodes| - 1], nodes[|nodes| - 1];
      ImportedRows(c, s, init, source, subId);
      var before, r := ImportAll(c, s, init, source, subId), ImportAll(c, s, nodes, source, subId);
      assert nodes == init + [n];
      assert c.open(c.seal(n.params)) == Some(n.params);
      forall x ensures RowRight(c, r, nodes, x) {
        assert RowRight(c, before, init, x);
        if x in r.rows { WrittenBySnoc(c, r.rows[x], init, n, x); }
      }
    }
  }

  // ---------- What is counted ----------

  /** Names that nodes bring in. */
  function NewNames(rows: map<string, NodeRow>, nodes: seq<Node>): set<string> {
    if nodes == [] then {}
    else
      var last := nodes[|nodes| - 1].name;
      NewNames(rows, nodes[..|nodes| - 1]) + if last in rows then {} else {last}
  }

  lemma {:induction false} NewNamesExactly(rows: map<string, NodeRow>, nodes: seq<Node>, x: string)
    ensures x in NewNames(rows, nodes) <==> x !in rows && Named(nodes, x)
  {
    if nodes != [] {
      NewNamesExactly(rows, nodes[..|nodes| - 1], x);
      assert nodes == nodes[..|nodes| - 1] + [nodes[|nodes| - 1]];
      NamedSnoc(nodes[..|nodes| - 1], nodes[|nodes| - 1], x);
    }
  }

  lemma NamedSnoc(nodes: seq<Node>, n: Node, x: string)
    ensures Named(nodes + [n], x) <==> Named(nodes, x) || n.name == x
  {
    var all := nodes + [n];
    assert all[|nodes|] == n && forall i :: 0 <= i < |nodes| ==> all[i] == nodes[i];
  }

  /** How many nodes say something else than what is known of their name. */
  function Differing(c: Cipher, known: map<string, NodeRow>, nodes: seq<Node>): nat {
    if nodes == [] then 0
    else
      var last := nodes[|nodes| - 1];
      Differing(c, known, nodes[..|nodes| - 1])
      + if last.name in known && !Matches(c, known[last.name], last) then 1 else 0
  }

  lemma {:induction false} DifferingStill(c: Cipher, known: map<string, NodeRow>, more: map<string, NodeRow>,
      nodes: seq<Node>)
    requires forall n :: n in nodes ==> n.name in known && n.name in more && more[n.name] == known[n.name]
    ensures Differing(c, more, nodes) == Differing(c, known, nodes)
  {
    if nodes != [] {
      assert nodes[|nodes| - 1] in nodes;
      DifferingStill(c, known, more, nodes[..|nodes| - 1]);
    }
  }

  /** What the counters come to, and what the nodes so far made known. */
  ghost predicate CountedAs(c: Cipher, rows: map<string, NodeRow>, nextId: int, r: State, nodes: seq<Node>) {
    && (forall x :: x in r.existing <==> x in rows || x in NewNames(rows, nodes))
    && (forall n :: n in nodes ==> n.name in r.existing)
    && r.imported == |NewNames(rows, nodes)| && r.nextId == nextId + r.imported
    && r.updated == Differing(c, r.existing, nodes) && r.imported + r.updated + r.skipped == |nodes|
  }

  lemma CountedKnown(c: Cipher, rows: map<string, NodeRow>, nextId: int, s: State, nodes: seq<Node>, n: Node,
      source: string, subId: int)
    requires s.existing.Keys == s.rows.Keys && CountedAs(c, rows, nextId, s, nodes) && n.name in s.existing
    ensures CountedAs(c, rows, nextId, Step(c, s, n, source, subId), nodes + [n])
  {
    assert (nodes + [n])[..|nodes|] == nodes;
    var names := NewNames(rows, nodes);
    assert n.name !in rows ==> names + {n.name} == names;
    assert names + {} == names;
  }

  lemma DifferingSnoc(c: Cipher, known: map<string, NodeRow>, nodes: seq<Node>, n: Node)
    ensures Differing(c, known, nodes + [n]) ==
      Differing(c, known, nodes) + if n.name in known && !Matches(c, known[n.name], n) then 1 else 0
  {
    assert (nodes + [n])[..|nodes|] == nodes;
  }

  lemma NewNamesSnoc(rows: map<string, NodeRow>, nodes: seq<Node>, n: Node)
    ensures NewNames(rows, nodes + [n]) == NewNames(rows, nodes) + if n.name in rows then {} else {n.name}
  {
    assert (nodes + [n])[..|nodes|] == nodes;
  }

  lemma CountedNew(c: Cipher, rows: map<string, NodeRow>, nextId: int, s: State, nodes: seq<Node>, n: Node,
      source: string, subId: int)
    requires Faithful(c) && s.existing.Keys == s.rows.Keys
    requires CountedAs(c, rows, nextId, s, nodes) && n.name !in s.existing
    ensures CountedAs(c, rows, nextId, Step(c, s, n, source, subId), nodes + [n])
  {
    var r, names := Step(c, s, n, source, subId), NewNames(rows, nodes);
    assert Matches(c, r.existing[n.name], n) by {
      assert c.open(c.seal(n.params)) == Some(n.params);
    }
    DifferingStill(c, s.existing, r.existing, nodes);
    DifferingSnoc(c, r.existing, nodes, n);
    NewNamesSnoc(rows, nodes, n);
    assert n.name !in rows && n.name !in names;
    assert |names + {n.name}| == |names| + 1;
  }

  /** One new row for each new name, one update for each node that differs from what is known of its name: the
      row at the start, or the one its first node made. */
  lemma {:induction false} CountsExactly(c: Cipher, rows: map<string, NodeRow>, nextId: int, nodes: seq<Node>,
      source: string, subId: int)
    requires Faithful(c)
    ensures CountedAs(c, rows, nextId, ImportAll(c, Start(rows, nextId), nodes, source, subId), nodes)
  {
    if nodes != [] {
      var init, n := nodes[..|nodes| - 1], nodes[|nodes| - 1];
      var s := ImportAll(c, Start(rows, nextId), init, source, subId);
      CountsExactly(c, rows, nextId, init, source, subId);
      assert nodes == init + [n];
      if n.name in s.existing {
        CountedKnown(c, rows, nextId, s, init, n, source, subId);
      } else {
        CountedNew(c, rows, nextId, s, init, n, source, subId);
      }
    }
  }

  /** Rows that match every node are left alone by an import. */
  lemma {:induction false} AllSkipped(c: Cipher, s: State, nodes: seq<Node>, source: string, subId: int)
    requires s.existing.Keys == s.rows.Keys
    requires forall i :: 0 <= i < |nodes| ==>
      nodes[i].name in s.existing && Matches(c, s.existing[nodes[i].name], nodes[i])
    ensures ImportAll(c, s, nodes, source, subId) == s.(skipped := s.skipped + |nodes|)
  {
    if nodes != [] {
      AllSkipped(c, s, nodes[..|nodes| - 1], source, subId);
    }
  }

  /** If an import writes nothing, every node matches what was known. */
  lemma {:induction false} SkippedMatch(c: Cipher, s: State, nodes: seq<Node>, source: string, subId: int)
    requires s.existing.Keys == s.rows.Keys
    requires var r := ImportAll(c, s, nodes, source, subId); r.imported == s.imported && r.updated == s.updated
    ensures forall i :: 0 <= i < |nodes| ==>
      nodes[i].name in s.existing && Matches(c, s.existing[nodes[i].name], nodes[i])
    ensures ImportAll(c, s, nodes, source, subId).existing == s.existing
  {
    if nodes != [] {
      CountersGrow(c, s, nodes[..|nodes| - 1], source, subId);
      SkippedMatch(c, s, nodes[..|nodes| - 1], source, subId);
    }
  }

  lemma {:induction false} CountersGrow(c: Cipher, s: State, nodes: seq<Node>, source: string, subId: int)
    requires s.existing.Keys == s.rows.Keys
    ensures var r := ImportAll(c, s, nodes, source, subId); r.imported >= s.imported && r.updated >= s.updated
  {
    if nodes != [] { CountersGrow(c, s, nodes[..|nodes| - 1], source, subId); }
  }

  /** Importing the same nodes a second time imports and updates nothing, if and only if nodes of one
      name agree; then it also leaves every row as it is. */
  lemma SecondImportIsIdleExactly(c: Cipher, rows: map<string, NodeRow>, nextId: int, nodes: seq<Node>, source: string,
      subId: int)
    requires Faithful(c)
    ensures var first := ImportAll(c, Start(rows, nextId), nodes, source, subId);
      var second := ImportAll(c, Start(first.rows, first.nextId), nodes, source, subId);
      && (second.imported == 0 && second.updated == 0 <==> Agree(nodes))
      && (Agree(nodes) ==> second.rows == first.rows && second.skipped == |nodes|)
  {
    var first := ImportAll(c, Start(rows, nextId), nodes, source, subId);
    var s := Start(first.rows, first.nextId);
    var second := ImportAll(c, s, nodes, source, subId);
    ImportedRows(c, Start(rows, nextId), nodes, source, subId);
    if Agree(nodes) {
      forall i | 0 <= i < |nodes|
        ensures nodes[i].name in first.rows && Matches(c, first.rows[nodes[i].name], nodes[i])
      {
        var x := nodes[i].name;
        assert RowRight(c, first, nodes, x) && Named(nodes, x);
        var j :| 0 <= j < |nodes| && nodes[j].name == x && Matches(c, first.rows[x], nodes[j]);
        assert SameContent(nodes[i], nodes[j]);
      }
      AllSkipped(c, s, nodes, source, subId);
    }
    if second.imported == 0 && second.updated == 0 {
      SkippedMatch(c, s, nodes, source, subId);
    }
  }

  /** Distinct names are enough. */
  lemma DistinctNamesAgree(nodes: seq<Node>)
    requires NoRepeat(Names(nodes))
    ensures Agree(nodes)
  {
    forall i, j | 0 <= i < |nodes| && 0 <= j < |nodes| && nodes[i].name == nodes[j].name ensures i == j {
      NamesAt(nodes, i);
      NamesAt(nodes, j);
    }
  }

  lemma {:induction false} NamesAt(nodes: seq<Node>, i: nat)
    requires i < |nodes|
    ensures |Names(nodes)| == |nodes| && Names(nodes)[i] == nodes[i].name
  {
    if i < |nodes| - 1 {
      NamesAt(nodes[..|nodes| - 1], i);
    } else if |nodes| > 1 {
      NamesAt(nodes[..|nodes| - 1], 0);
    }
  }
}
