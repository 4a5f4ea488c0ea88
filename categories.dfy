/** The aggregator's `error_categories`: an insertion-ordered dictionary
    from each error string to the nodes that reported it, built from the
    failed records only. */
module ErrorCategories {
  import opened Records

  /** One reported error: the error string and the node that reported it. */
  datatype Occurrence = Occurrence(error: string, node: string)

  /** An insertion-ordered dictionary of lists: `keys` in insertion order,
      `nodes` the list kept under each key. */
  datatype Groups = Groups(keys: seq<string>, nodes: map<string, seq<string>>)

  ghost predicate Distinct(s: seq<string>) {
    forall i, j :: 0 <= i < j < |s| ==> s[i] != s[j]
  }

  ghost predicate Valid(g: Groups) {
    && Distinct(g.keys)
    && (forall k :: k in g.keys <==> k in g.nodes)
  }

  /** The errors of one record, each paired with its node, in list order. */
  function RecordOccurrences(r: TestResult): (occ: seq<Occurrence>)
    ensures |occ| == |r.errors|
    ensures forall k :: 0 <= k < |occ| ==> occ[k] == Occurrence(r.errors[k], r.node)
  {
    seq(|r.errors|, k requires 0 <= k < |r.errors| => Occurrence(r.errors[k], r.node))
  }

  /** Every error of every record in `rs`, in the order the nested loops
      visit them. */
  function Occurrences(rs: seq<TestResult>): seq<Occurrence> {
    if rs == [] then [] else Occurrences(rs[..|rs| - 1]) + RecordOccurrences(rs[|rs| - 1])
  }

  /** The total number of error strings in `rs`. */
  function ErrorCount(rs: seq<TestResult>): nat {
    if rs == [] then 0 else ErrorCount(rs[..|rs| - 1]) + |rs[|rs| - 1].errors|
  }

  lemma {:induction false} OccurrencesLength(rs: seq<TestResult>)
    ensures |Occurrences(rs)| == ErrorCount(rs)
  {
    if rs != [] {
      OccurrencesLength(rs[..|rs| - 1]);
    }
  }

  /** An error occurs in `occ` exactly when some record of `rs` lists it. */
  lemma {:induction false} OccurrencesMembers(rs: seq<TestResult>, e: string)
    ensures (exists k :: 0 <= k < |Occurrences(rs)| && Occurrences(rs)[k].error == e)
            <==> (exists i :: 0 <= i < |rs| && e in rs[i].errors)
  {
    if rs != [] {
      var init := rs[..|rs| - 1];
      var last := rs[|rs| - 1];
      OccurrencesMembers(init, e);
      var occ := Occurrences(rs);
      assert occ == Occurrences(init) + RecordOccurrences(last);
      if exists i :: 0 <= i < |rs| && e in rs[i].errors {
        var i :| 0 <= i < |rs| && e in rs[i].errors;
        if i < |rs| - 1 {
          assert init[i] == rs[i];
          var k :| 0 <= k < |Occurrences(init)| && Occurrences(init)[k].error == e;
          assert occ[k].error == e;
        } else {
          var j :| 0 <= j < |last.errors| && last.errors[j] == e;
          assert occ[|Occurrences(init)| + j].error == e;
        }
      }
      if exists k :: 0 <= k < |occ| && occ[k].error == e {
        var k :| 0 <= k < |occ| && occ[k].error == e;
        if k < |Occurrences(init)| {
          assert Occurrences(init)[k].error == e;
          var i :| 0 <= i < |init| && e in init[i].errors;
          assert rs[i] == init[i];
        } else {
          assert last.errors[k - |Occurrences(init)|] == e;
          assert e in rs[|rs| - 1].errors;
        }
      }
    }
  }

  /** One step of the inner loop: a new error opens a list after all
      existing keys; a known one gets the node appended. */
  function Add(g: Groups, o: Occurrence): (r: Groups)
    ensures Valid(g) ==> Valid(r)
    ensures o.error in r.nodes && |r.nodes[o.error]| > 0
            && r.nodes[o.error][|r.nodes[o.error]| - 1] == o.node
  {
    if o.error in g.nodes then Groups(g.keys, g.nodes[o.error := g.nodes[o.error] + [o.node]])
    else Groups(g.keys + [o.error], g.nodes[o.error := [o.node]])
  }

  /** The dictionary after visiting `occ` in order. */
  function GroupAll(occ: seq<Occurrence>): (g: Groups)
    ensures |g.keys| <= |occ|
  {
    if occ == [] then Groups([], map[]) else Add(GroupAll(occ[..|occ| - 1]), occ[|occ| - 1])
  }

  /** The dictionary stays well formed: keys are distinct and are exactly
      the dictionary's domain. */
  lemma {:induction false} GroupAllValid(occ: seq<Occurrence>)
    ensures Valid(GroupAll(occ))
  {
    if occ != [] {
      var g := GroupAll(occ[..|occ| - 1]);
      GroupAllValid(occ[..|occ| - 1]);
      var o := occ[|occ| - 1];
      if o.error !in g.nodes {
        assert forall i :: 0 <= i < |g.keys| ==> g.keys[i] != o.error;
      }
    }
  }

  /** The nodes of `occ` that reported `e`, in encounter order, once per
      occurrence. */
  function NodesReporting(occ: seq<Occurrence>, e: string): seq<string> {
    if occ == [] then []
    else NodesReporting(occ[..|occ| - 1], e)
         + (if occ[|occ| - 1].error == e then [occ[|occ| - 1].node] else [])
  }

  /** The index of the first occurrence of `e`. */
  function FirstIndex(occ: seq<Occurrence>, e: string): (k: nat)
    requires exists k :: 0 <= k < |occ| && occ[k].error == e
    ensures k < |occ| && occ[k].error == e
    ensures forall j :: 0 <= j < k ==> occ[j].error != e
  {
    if occ[0].error == e then 0
    else
      assert exists k :: 0 <= k < |occ[1..]| && occ[1..][k].error == e by {
        var k :| 0 <= k < |occ| && occ[k].error == e;
        assert occ[1..][k - 1] == occ[k];
      }
      1 + FirstIndex(occ[1..], e)
  }

  /** The keys are exactly the errors that occur, and each key's list is
      the nodes reporting it, once per occurrence, in encounter order. */
  lemma {:induction false} GroupAllContents(occ: seq<Occurrence>)
    ensures forall e :: e in GroupAll(occ).nodes <==> exists k :: 0 <= k < |occ| && occ[k].error == e
    ensures forall e :: e in GroupAll(occ).nodes ==> GroupAll(occ).nodes[e] == NodesReporting(occ, e)
  {
    if occ != [] {
      var init := occ[..|occ| - 1];
      var o := occ[|occ| - 1];
      GroupAllContents(init);
      forall e ensures e in GroupAll(occ).nodes <==> exists k :: 0 <= k < |occ| && occ[k].error == e {
        if exists k :: 0 <= k < |init| && init[k].error == e {
          var k :| 0 <= k < |init| && init[k].error == e;
          assert occ[k] == init[k];
        }
        if exists k :: 0 <= k < |occ| && occ[k].error == e {
          var k :| 0 <= k < |occ| && occ[k].error == e;
          if k < |occ| - 1 {
            assert init[k] == occ[k];
          }
        }
      }
      var g0 := GroupAll(init);
      var g := GroupAll(occ);
      forall e | e in g.nodes ensures g.nodes[e] == NodesReporting(occ, e) {
        if e == o.error && o.error !in g0.nodes {
          NodesReportingAbsent(init, e);
        }
      }
    }
  }

  lemma {:induction false} NodesReportingAbsent(occ: seq<Occurrence>, e: string)
    requires forall k :: 0 <= k < |occ| ==> occ[k].error != e
    ensures NodesReporting(occ, e) == []
  {
    if occ != [] {
      NodesReportingAbsent(occ[..|occ| - 1], e);
    }
  }

  /** Some occurrence in `occ` carries `e`. */
  ghost predicate Occurs(occ: seq<Occurrence>, e: string) {
    exists m :: 0 <= m < |occ| && occ[m].error == e
  }

  /** Every key occurs in `occ`. */
  ghost predicate KeysOccur(occ: seq<Occurrence>, keys: seq<string>) {
    forall k :: 0 <= k < |keys| ==> Occurs(occ, keys[k])
  }

  /** Every key occurs in `occ`, and keys are listed in order of their
      first occurrence. */
  ghost predicate OrderedByFirst(occ: seq<Occurrence>, keys: seq<string>) {
    && KeysOccur(occ, keys)
    && (forall i, j :: 0 <= i < j < |keys| ==> FirstIndex(occ, keys[i]) < FirstIndex(occ, keys[j]))
  }

  /** Keys appear in order of first occurrence. */
  lemma {:induction false} GroupAllOrder(occ: seq<Occurrence>)
    ensures OrderedByFirst(occ, GroupAll(occ).keys)
  {
    if occ != [] {
      var init := occ[..|occ| - 1];
      var o := occ[|occ| - 1];
      assert occ == init + [o];
      GroupAllOrder(init);
      GroupAllContents(init);
      GroupAllValid(init);
      var g0 := GroupAll(init);
      forall m | 0 <= m < |init| ensures init[m].error in g0.keys {
        assert init[m].error in g0.nodes;
      }
      OrderStep(init, o, g0.keys);
      if o.error !in g0.nodes {
        assert o.error !in g0.keys;
      }
    }
  }

  lemma OrderStep(init: seq<Occurrence>, o: Occurrence, keys: seq<string>)
    requires OrderedByFirst(init, keys)
    requires forall m :: 0 <= m < |init| ==> init[m].error in keys
    ensures OrderedByFirst(init + [o], keys)
    ensures o.error !in keys ==> OrderedByFirst(init + [o], keys + [o.error])
  {
    OrderKeptByAppend(init, o, keys);
    if o.error !in keys {
      NewKeyOccurs(init, o, keys);
      assert forall m :: 0 <= m < |init| ==> init[m].error != o.error;
      NewKeyOrder(init, o, keys);
    }
  }

  lemma OrderKeptByAppend(init: seq<Occurrence>, o: Occurrence, keys: seq<string>)
    requires OrderedByFirst(init, keys)
    ensures OrderedByFirst(init + [o], keys)
    ensures forall k :: 0 <= k < |keys| ==> FirstIndex(init + [o], keys[k]) < |init|
  {
    var occ := init + [o];
    forall k | 0 <= k < |keys|
      ensures Occurs(occ, keys[k])
    {
      assert Occurs(init, keys[k]);
      var m :| 0 <= m < |init| && init[m].error == keys[k];
      assert occ[m] == init[m];
    }
    forall k | 0 <= k < |keys|
      ensures FirstIndex(occ, keys[k]) == FirstIndex(init, keys[k])
    {
      FirstIndexOfPrefix(init, o, keys[k]);
    }
    forall i, j | 0 <= i < j < |keys|
      ensures FirstIndex(occ, keys[i]) < FirstIndex(occ, keys[j])
    {
      assert FirstIndex(init, keys[i]) < FirstIndex(init, keys[j]);
    }
  }

  lemma NewKeyOccurs(init: seq<Occurrence>, o: Occurrence, keys: seq<string>)
    requires KeysOccur(init + [o], keys)
    ensures KeysOccur(init + [o], keys + [o.error])
  {
    var occ := init + [o];
    var keys' := keys + [o.error];
    forall k | 0 <= k < |keys'| ensures Occurs(occ, keys'[k]) {
      if k < |keys| {
        assert keys'[k] == keys[k];
        assert Occurs(occ, keys[k]);
      } else {
        assert occ[|init|].error == keys'[k];
      }
    }
  }

  lemma NewKeyOrder(init: seq<Occurrence>, o: Occurrence, keys: seq<string>)
    requires OrderedByFirst(init + [o], keys)
    requires forall k :: 0 <= k < |keys| ==> FirstIndex(init + [o], keys[k]) < |init|
    requires KeysOccur(init + [o], keys + [o.error])
    requires forall m :: 0 <= m < |init| ==> init[m].error != o.error
    ensures forall i, j :: 0 <= i < j < |keys + [o.error]| ==>
      FirstIndex(init + [o], (keys + [o.error])[i]) < FirstIndex(init + [o], (keys + [o.error])[j])
  {
    var occ := init + [o];
    var keys' := keys + [o.error];
    FirstIndexOfNew(init, o);
    forall i, j | 0 <= i < j < |keys'|
      ensures FirstIndex(occ, keys'[i]) < FirstIndex(occ, keys'[j])
    {
      NewKeyPair(occ, keys, o.error, |init|, i, j);
    }
  }

  /** An error seen for the first time at the end has its first index there. */
  lemma FirstIndexOfNew(init: seq<Occurrence>, o: Occurrence)
    requires forall m :: 0 <= m < |init| ==> init[m].error != o.error
    ensures Occurs(init + [o], o.error) && FirstIndex(init + [o], o.error) == |init|
  {
    var occ := init + [o];
    assert occ[|init|].error == o.error;
  }

  lemma NewKeyPair(occ: seq<Occurrence>, keys: seq<string>, e: string, n: nat, i: nat, j: nat)
    requires OrderedByFirst(occ, keys) && KeysOccur(occ, keys + [e])
    requires forall k :: 0 <= k < |keys| ==> FirstIndex(occ, keys[k]) < n
    requires Occurs(occ, e) && FirstIndex(occ, e) == n
    requires i < j < |keys| + 1
    ensures FirstIndex(occ, (keys + [e])[i]) < FirstIndex(occ, (keys + [e])[j])
  {
    var keys' := keys + [e];
    assert keys'[i] == keys[i];
    if j < |keys| {
      assert keys'[j] == keys[j];
    } else {
      assert keys'[j] == e;
    }
  }

  lemma FirstIndexOfPrefix(init: seq<Occurrence>, o: Occurrence, e: string)
    requires exists k :: 0 <= k < |init| && init[k].error == e
    ensures exists k :: 0 <= k < |init + [o]| && (init + [o])[k].error == e
    ensures FirstIndex(init + [o], e) == FirstIndex(init, e)
  {
    var occ := init + [o];
    var k :| 0 <= k < |init| && init[k].error == e;
    assert occ[k] == init[k];
    var a := FirstIndex(occ, e);
    var b := FirstIndex(init, e);
    assert occ[b] == init[b];
  }

  /** The lengths of the lists under `keys`. */
  function TotalListed(keys: seq<string>, nodes: map<string, seq<string>>): nat {
    if keys == [] then 0
    else
      var last := keys[|keys| - 1];
      TotalListed(keys[..|keys| - 1], nodes) + (if last in nodes then |nodes[last]| else 0)
  }

  lemma {:induction false} TotalListedFrame(keys: seq<string>, a: map<string, seq<string>>,
                                            b: map<string, seq<string>>)
    requires forall k :: k in keys ==> (k in a <==> k in b) && (k in a ==> |a[k]| == |b[k]|)
    ensures TotalListed(keys, a) == TotalListed(keys, b)
  {
    if keys != [] {
      TotalListedFrame(keys[..|keys| - 1], a, b);
    }
  }

  lemma {:induction false} TotalListedBump(keys: seq<string>, nodes: map<string, seq<string>>,
                                           e: string, n: string)
    requires forall k :: k in keys ==> k in nodes
    requires e in keys && Distinct(keys)
    ensures TotalListed(keys, nodes[e := nodes[e] + [n]]) == TotalListed(keys, nodes) + 1
  {
    var init := keys[..|keys| - 1];
    var last := keys[|keys| - 1];
    var bumped := nodes[e := nodes[e] + [n]];
    if last == e {
      TotalListedFrame(init, nodes, bumped);
    } else {
      assert e in init by {
        var i :| 0 <= i < |keys| && keys[i] == e;
        assert init[i] == e;
      }
      TotalListedBump(init, nodes, e, n);
    }
  }

  /** The list lengths add up to the number of occurrences. */
  lemma {:induction false} GroupAllTotal(occ: seq<Occurrence>)
    ensures TotalListed(GroupAll(occ).keys, GroupAll(occ).nodes) == |occ|
  {
    if occ != [] {
      var init := occ[..|occ| - 1];
      var o := occ[|occ| - 1];
      var g0 := GroupAll(init);
      GroupAllTotal(init);
      GroupAllValid(init);
      GroupAllValid(occ);
      if o.error in g0.nodes {
        TotalListedBump(g0.keys, g0.nodes, o.error, o.node);
      } else {
        var g := GroupAll(occ);
        assert g.keys[..|g.keys| - 1] == g0.keys;
        TotalListedFrame(g0.keys, g0.nodes, g.nodes);
      }
    }
  }

  lemma GroupAllSnoc(occ: seq<Occurrence>, o: Occurrence)
    ensures GroupAll(occ + [o]) == Add(GroupAll(occ), o)
  {
    assert (occ + [o])[..|occ|] == occ;
  }

  lemma OccurrencesSnoc(rs: seq<TestResult>, i: nat)
    requires i < |rs|
    ensures Occurrences(rs[..i + 1]) == Occurrences(rs[..i]) + RecordOccurrences(rs[i])
  {
    assert rs[..i + 1][..i] == rs[..i];
  }

  /** The inner loop's body: open the error's list if it is new, then
      append the node. */
  method AppendNode(categories: Groups, error: string, node: string) returns (updated: Groups)
    ensures updated == Add(categories, Occurrence(error, node))
  {
    updated := categories;
    if error !in updated.nodes {
      updated := Groups(updated.keys + [error], updated.nodes[error := []]);
    }
    updated := updated.(nodes := updated.nodes[error := updated.nodes[error] + [node]]);
    assert [] + [node] == [node];
  }

  /** The inner loop of the aggregator, over one failed record's errors:
      `categories` already holds the occurrences `done`. */
  method AddRecordErrors(categories: Groups, ghost done: seq<Occurrence>, r: TestResult)
    returns (updated: Groups)
    requires categories == GroupAll(done)
    ensures updated == GroupAll(done + RecordOccurrences(r))
  {
    updated := categories;
    ghost var sofar := done;
    var j := 0;
    while j < |r.errors|
      invariant 0 <= j <= |r.errors|
      invariant sofar == done + RecordOccurrences(r)[..j]
      invariant updated == GroupAll(sofar)
    {
      var o := Occurrence(r.errors[j], r.node);
      updated := AppendNode(updated, r.errors[j], r.node);
      GroupAllSnoc(sofar, o);
      sofar := sofar + [o];
      j := j + 1;
    }
    assert RecordOccurrences(r)[..j] == RecordOccurrences(r);
  }

  /** The outer loop of the aggregator, over the failed records in order. */
  method BuildErrorCategories(failures: seq<TestResult>) returns (categories: Groups)
    ensures categories == GroupAll(Occurrences(failures))
  {
    categories := Groups([], map[]);
    var i := 0;
    while i < |failures|
      invariant 0 <= i <= |failures|
      invariant categories == GroupAll(Occurrences(failures[..i]))
    {
      categories := AddRecordErrors(categories, Occurrences(failures[..i]), failures[i]);
      OccurrencesSnoc(failures, i);
      i := i + 1;
    }
    assert failures[..i] == failures;
  }
}
