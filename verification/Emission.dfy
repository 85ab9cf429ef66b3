/** Match results: the first emission per key, in execution order. */
module Emission {
  import opened Wrappers
  import opened Values
  import opened Graphs
  import opened Rules
  import opened Parser
  import opened Dataflow

  type Fields = map<string, Value>

  /** Python's str() of a value and of the sorted items of a dict. */
  datatype Rendering = Rendering(str: Value -> string, items: Fields -> string)

  /** The item id when there is one, else a rendering of the whole dict. */
  function KeyOf(py: Rendering, m: Fields): string {
    var itemId := if Truthy(Get(m, "item_id")) then Get(m, "item_id") else Get(m, "id");
    if Truthy(itemId) then py.str(itemId) else py.items(m)
  }

  /** The key of a result: its item id, else its id, else a rendering of all of it. Results with one item id share a
      key, whatever else they hold. */
  lemma KeyPriority(py: Rendering, m: Fields)
    ensures "item_id" in m && Truthy(m["item_id"]) ==> KeyOf(py, m) == py.str(m["item_id"])
    ensures !("item_id" in m && Truthy(m["item_id"])) && "id" in m && Truthy(m["id"]) ==>
              KeyOf(py, m) == py.str(m["id"])
    ensures !("item_id" in m && Truthy(m["item_id"])) && !("id" in m && Truthy(m["id"])) ==> KeyOf(py, m) == py.items(m)
  {
  }

  predicate Emits(kind: NodeType) {
    IsMatcher(kind) || kind.MatchOutput?
  }

  /** What node n emits once its outputs are known: the dict it puts out, if it is an emitting node. */
  function EmissionOf(c: Canvas, outs: map<NodeId, Handles>, n: NodeId): Option<Fields> {
    if Runnable(c, n) && Emits(NodeOf(c, n).kind) && n in outs && Get(outs[n], "out").Dict?
    then Some(Get(outs[n], "out").fields)
    else None
  }

  /** Emissions of the first k nodes of s, in order. */
  function Emitted(c: Canvas, outs: map<NodeId, Handles>, s: seq<NodeId>, k: nat): seq<Fields>
    requires k <= |s|
  {
    if k == 0 then []
    else
      var rest := Emitted(c, outs, s, k - 1);
      var e := EmissionOf(c, outs, s[k - 1]);
      if e.Some? then rest + [e.value] else rest
  }

  /** Node n is a match or output node that ran and holds the dict e under its "out" handle. */
  ghost predicate PutsOut(c: Canvas, outs: map<NodeId, Handles>, n: NodeId, e: Fields) {
    && Known(c, n)
    && NodeOf(c, n).kind in {MatchMbid, MatchFuzzy, MatchAlbum, MatchComposite, MatchOutput}
    && n in outs && "out" in outs[n] && outs[n]["out"] == Dict(e)
  }

  /** What a node emits is the dict it puts out, if it is one of the five emitting types. */
  lemma EmissionIs(c: Canvas, outs: map<NodeId, Handles>, n: NodeId)
    ensures forall e :: EmissionOf(c, outs, n) == Some(e) <==> PutsOut(c, outs, n, e)
  {
  }

  ghost predicate HasKey(py: Rendering, es: seq<Fields>, key: string) {
    exists e :: e in es && KeyOf(py, e) == key
  }

  /** Position i is the first with its key. */
  ghost predicate FirstOfKey(py: Rendering, es: seq<Fields>, i: nat)
    requires i < |es|
  {
    forall j | 0 <= j < i :: KeyOf(py, es[j]) != KeyOf(py, es[i])
  }

  /** Among the first k emissions, those that are the first with their key, in order. */
  ghost function FirstPerKey(py: Rendering, es: seq<Fields>, k: nat): seq<Fields>
    requires k <= |es|
  {
    if k == 0 then []
    else
      var rest := FirstPerKey(py, es, k - 1);
      if FirstOfKey(py, es, k - 1) then rest + [es[k - 1]] else rest
  }

  ghost function Results(py: Rendering, es: seq<Fields>): seq<Fields> {
    FirstPerKey(py, es, |es|)
  }

  // ------------------------------------------------------ properties

  /** The results carry exactly the keys emitted. */
  lemma {:induction false} SameKeys(py: Rendering, es: seq<Fields>, k: nat, key: string)
    requires k <= |es|
    ensures HasKey(py, FirstPerKey(py, es, k), key) <==> HasKey(py, es[..k], key)
  {
    if k > 0 {
      SameKeys(py, es, k - 1, key);
      var rest := FirstPerKey(py, es, k - 1);
      assert es[..k] == es[..k - 1] + [es[k - 1]];
      HasKeyAppend(py, es[..k - 1], es[k - 1], key);
      HasKeyAppend(py, rest, es[k - 1], key);
      if !FirstOfKey(py, es, k - 1) && KeyOf(py, es[k - 1]) == key {
        var j :| 0 <= j < k - 1 && KeyOf(py, es[j]) == key;
        assert es[..k - 1][j] in es[..k - 1];
      }
    }
  }

  lemma HasKeyAppend(py: Rendering, es: seq<Fields>, e: Fields, key: string)
    ensures HasKey(py, es + [e], key) <==> HasKey(py, es, key) || KeyOf(py, e) == key
  {
    assert e in es + [e];
    forall x | x in es
      ensures x in es + [e]
    {
    }
  }

  ghost predicate NoKeyTwice(py: Rendering, r: seq<Fields>) {
    forall i, j | 0 <= i < j < |r| :: KeyOf(py, r[i]) != KeyOf(py, r[j])
  }

  lemma NoKeyTwiceAppend(py: Rendering, r: seq<Fields>, e: Fields)
    requires NoKeyTwice(py, r) && !HasKey(py, r, KeyOf(py, e))
    ensures NoKeyTwice(py, r + [e])
  {
    forall i | 0 <= i < |r|
      ensures KeyOf(py, r[i]) != KeyOf(py, e)
    {
      assert r[i] in r;
    }
  }

  /** The results carry no key twice. */
  lemma {:induction false} ResultsNoKeyTwice(py: Rendering, es: seq<Fields>, k: nat)
    requires k <= |es|
    ensures NoKeyTwice(py, FirstPerKey(py, es, k))
  {
    if k > 0 {
      ResultsNoKeyTwice(py, es, k - 1);
      if FirstOfKey(py, es, k - 1) {
        var key := KeyOf(py, es[k - 1]);
        SameKeys(py, es, k - 1, key);
        forall e | e in es[..k - 1]
          ensures KeyOf(py, e) != key
        {
          var j :| 0 <= j < k - 1 && es[j] == e;
        }
        NoKeyTwiceAppend(py, FirstPerKey(py, es, k - 1), es[k - 1]);
      }
    }
  }

  /** Every result comes from an emitting node that ran. */
  lemma {:induction false} EmittedByEmitters(c: Canvas, outs: map<NodeId, Handles>, s: seq<NodeId>, k: nat)
    requires k <= |s|
    ensures forall e | e in Emitted(c, outs, s, k) :: exists n :: n in s[..k] && EmissionOf(c, outs, n) == Some(e)
  {
    if k > 0 {
      EmittedByEmitters(c, outs, s, k - 1);
      assert s[..k] == s[..k - 1] + [s[k - 1]];
      forall e | e in Emitted(c, outs, s, k)
        ensures exists n :: n in s[..k] && EmissionOf(c, outs, n) == Some(e)
      {
        if e in Emitted(c, outs, s, k - 1) {
          var n :| n in s[..k - 1] && EmissionOf(c, outs, n) == Some(e);
          assert n in s[..k];
        } else {
          assert s[k - 1] in s[..k];
        }
      }
    }
  }

  lemma {:induction false} EmittersEmit(c: Canvas, outs: map<NodeId, Handles>, s: seq<NodeId>, k: nat, n: NodeId)
    requires k <= |s| && n in s[..k] && EmissionOf(c, outs, n).Some?
    ensures EmissionOf(c, outs, n).value in Emitted(c, outs, s, k)
  {
    assert s[..k] == s[..k - 1] + [s[k - 1]];
    if n != s[k - 1] {
      EmittersEmit(c, outs, s, k - 1, n);
    }
  }

  /** A key is in the results exactly when some visited node emits a dict with that key: which keys come
      out does not depend on the order of execution. */
  lemma KeysFromNodes(c: Canvas, py: Rendering, outs: map<NodeId, Handles>, s: seq<NodeId>, key: string)
    ensures HasKey(py, Results(py, Emitted(c, outs, s, |s|)), key) <==>
            exists n :: n in s && EmissionOf(c, outs, n).Some? && KeyOf(py, EmissionOf(c, outs, n).value) == key
  {
    var es := Emitted(c, outs, s, |s|);
    assert es[..|es|] == es && s[..|s|] == s;
    SameKeys(py, es, |es|, key);
    EmittedByEmitters(c, outs, s, |s|);
    if n :| n in s && EmissionOf(c, outs, n).Some? && KeyOf(py, EmissionOf(c, outs, n).value) == key {
      EmittersEmit(c, outs, s, |s|, n);
    }
  }

  /** The results are exactly the dicts put out whose key no earlier node has put out, in the order of the nodes:
      result i stems from position at[i]. */
  ghost predicate AreFirsts(c: Canvas, py: Rendering, outs: map<NodeId, Handles>, s: seq<NodeId>, k: nat,
                            results: seq<Fields>, at: seq<nat>)
    requires k <= |s|
  {
    && |at| == |results|
    && (forall i | 0 <= i < |at| :: at[i] < k && PutsOut(c, outs, s[at[i]], results[i]))
    && (forall i, j | 0 <= i < j < |at| :: at[i] < at[j])
    && (forall p: nat, e | p < k && PutsOut(c, outs, s[p], e) :: p in at <==> NewKey(c, py, outs, s, p, KeyOf(py, e)))
  }

  /** No node before position p has put out a dict with the key. */
  ghost predicate NewKey(
    c: Canvas, py: Rendering, outs: map<NodeId, Handles>, s: seq<NodeId>, p: nat, key: string)
    requires p <= |s|
  {
    forall j, f | 0 <= j < p && PutsOut(c, outs, s[j], f) :: KeyOf(py, f) != key
  }

  lemma NewKeyIffUnseen(c: Canvas, py: Rendering, outs: map<NodeId, Handles>, s: seq<NodeId>, p: nat, key: string)
    requires p <= |s|
    ensures NewKey(c, py, outs, s, p, key) <==> !HasKey(py, Emitted(c, outs, s, p), key)
  {
    var es := Emitted(c, outs, s, p);
    EmittedByEmitters(c, outs, s, p);
    if e :| e in es && KeyOf(py, e) == key {
      var n :| n in s[..p] && EmissionOf(c, outs, n) == Some(e);
      EmissionIs(c, outs, n);
      var j :| 0 <= j < p && s[j] == n;
      assert PutsOut(c, outs, s[j], e);
    }
    forall j, f | 0 <= j < p && PutsOut(c, outs, s[j], f)
      ensures f in es
    {
      EmissionIs(c, outs, s[j]);
      assert s[..p][j] == s[j];
      EmittersEmit(c, outs, s, p, s[j]);
    }
  }

  /** The results of the first k nodes after one more node. */
  lemma ResultsNext(py: Rendering, es: seq<Fields>, e: Fields)
    ensures Results(py, es + [e]) == if HasKey(py, es, KeyOf(py, e)) then Results(py, es) else Results(py, es) + [e]
  {
    ResultsPrefix(py, es, e, |es|);
    FirstIfUnseen(py, es, e);
  }

  lemma {:induction false} ResultsAreFirsts(
    c: Canvas, py: Rendering, outs: map<NodeId, Handles>, s: seq<NodeId>, k: nat, results: seq<Fields>)
    returns (at: seq<nat>)
    requires k <= |s| && results == Results(py, Emitted(c, outs, s, k))
    ensures AreFirsts(c, py, outs, s, k, results, at)
    decreases k
  {
    at := [];
    if k > 0 {
      var before := Results(py, Emitted(c, outs, s, k - 1));
      at := ResultsAreFirsts(c, py, outs, s, k - 1, before);
      ResultsStep(c, py, outs, s, k - 1, before, results);
      if results == before {
        FirstsSame(c, py, outs, s, k - 1, before, at);
      } else {
        FirstsAnother(c, py, outs, s, k - 1, before, at, results[|before|]);
        at := at + [k - 1];
      }
    }
  }

  /** One more node: its dict is added if it puts one out and no earlier node has put one out with the key. */
  lemma ResultsStep(c: Canvas, py: Rendering, outs: map<NodeId, Handles>, s: seq<NodeId>, k: nat,
                    before: seq<Fields>, after: seq<Fields>)
    requires k < |s| && before == Results(py, Emitted(c, outs, s, k))
    requires after == Results(py, Emitted(c, outs, s, k + 1))
    ensures (after == before && forall e | PutsOut(c, outs, s[k], e) :: !NewKey(c, py, outs, s, k, KeyOf(py, e))) ||
            (|after| == |before| + 1 && after == before + [after[|before|]] &&
             PutsOut(c, outs, s[k], after[|before|]) && NewKey(c, py, outs, s, k, KeyOf(py, after[|before|])))
  {
    EmissionIs(c, outs, s[k]);
    var emission := EmissionOf(c, outs, s[k]);
    if emission.Some? {
      ResultsNext(py, Emitted(c, outs, s, k), emission.value);
      NewKeyIffUnseen(c, py, outs, s, k, KeyOf(py, emission.value));
    }
  }

  lemma FirstsSame(c: Canvas, py: Rendering, outs: map<NodeId, Handles>, s: seq<NodeId>, k: nat,
                   results: seq<Fields>, at: seq<nat>)
    requires k < |s| && AreFirsts(c, py, outs, s, k, results, at)
    requires forall e | PutsOut(c, outs, s[k], e) :: !NewKey(c, py, outs, s, k, KeyOf(py, e))
    ensures AreFirsts(c, py, outs, s, k + 1, results, at)
  {
  }

  lemma FirstsAnother(c: Canvas, py: Rendering, outs: map<NodeId, Handles>, s: seq<NodeId>, k: nat,
                      results: seq<Fields>, at: seq<nat>, e: Fields)
    requires k < |s| && AreFirsts(c, py, outs, s, k, results, at)
    requires PutsOut(c, outs, s[k], e) && NewKey(c, py, outs, s, k, KeyOf(py, e))
    ensures AreFirsts(c, py, outs, s, k + 1, results + [e], at + [k])
  {
    var more := at + [k];
    forall p: nat, f | p < k + 1 && PutsOut(c, outs, s[p], f)
      ensures p in more <==> NewKey(c, py, outs, s, p, KeyOf(py, f))
    {
      assert p < k ==> (p in more <==> p in at);
      assert p == k ==> f == e && more[|at|] == k;
    }
  }

  // ------------------------------------------------------ while running

  /** Outputs of nodes that run later do not change what was emitted. */
  lemma {:induction false} EmittedSoFar(c: Canvas, o1: map<NodeId, Handles>, o2: map<NodeId, Handles>,
                                         s: seq<NodeId>, k: nat)
    requires k <= |s| && Agree(s[..k], o1, o2)
    ensures Emitted(c, o1, s, k) == Emitted(c, o2, s, k)
  {
    if k > 0 {
      assert s[..k] == s[..k - 1] + [s[k - 1]];
      assert forall n | n in s[..k - 1] :: n in s[..k];
      EmittedSoFar(c, o1, o2, s, k - 1);
      assert s[k - 1] in s[..k];
    }
  }

  /** The emitter: a key already seen is dropped. */
  method Emit(py: Rendering, m: Value, results0: seq<Fields>, keys0: set<string>, ghost es: seq<Fields>)
    returns (results: seq<Fields>, keys: set<string>)
    requires results0 == Results(py, es)
    requires forall key :: key in keys0 <==> HasKey(py, es, key)
    ensures m.Dict? ==> results == Results(py, es + [m.fields])
    ensures m.Dict? ==> forall key :: key in keys <==> HasKey(py, es + [m.fields], key)
    ensures !m.Dict? ==> results == results0 && keys == keys0
  {
    results, keys := results0, keys0;
    if !m.Dict? {
      return;
    }
    ghost var es' := es + [m.fields];
    ResultsPrefix(py, es, m.fields, |es|);
    forall key {
      HasKeyAppend(py, es, m.fields, key);
    }
    var key := KeyOf(py, m.fields);
    FirstIfUnseen(py, es, m.fields);
    if key in keys {
      return;
    }
    keys := keys + {key};
    results := results + [m.fields];
  }

  lemma {:induction false} ResultsPrefix(py: Rendering, es: seq<Fields>, e: Fields, k: nat)
    requires k <= |es|
    ensures FirstPerKey(py, es + [e], k) == FirstPerKey(py, es, k)
  {
    if k > 0 {
      ResultsPrefix(py, es, e, k - 1);
      var es' := es + [e];
      assert forall j | 0 <= j < k :: es'[j] == es[j];
      assert FirstOfKey(py, es', k - 1) <==> FirstOfKey(py, es, k - 1);
    }
  }

  lemma FirstIfUnseen(py: Rendering, es: seq<Fields>, e: Fields)
    ensures FirstOfKey(py, es + [e], |es|) <==> !HasKey(py, es, KeyOf(py, e))
  {
    var es' := es + [e];
    if x :| x in es && KeyOf(py, x) == KeyOf(py, e) {
      var j :| 0 <= j < |es| && es[j] == x;
      assert es'[j] == x;
    }
    if j :| 0 <= j < |es| && KeyOf(py, es'[j]) == KeyOf(py, e) {
      assert es'[j] == es[j];
      assert es[j] in es;
      assert HasKey(py, es, KeyOf(py, e));
    }
  }
}
