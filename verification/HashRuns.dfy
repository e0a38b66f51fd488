/** Whole runs of the hash table, from a NULL head, against a map from keys to elements. */
module HashRuns {
  import opened Sequences
  import opened Options
  import opened BucketTable
  import opened UtHash

  /** A request for an element, for an element under a new key, or for the removal of the element under a key. */
  datatype Op = FindOp(key: Key) | AddOp(e: Elem) | DeleteOp(key: Key)

  /** The map after one operation, and what was found under its key before. */
  function Apply(m: map<Key, Elem>, op: Op): (map<Key, Elem>, Option<Elem>) {
    var key := if op.AddOp? then op.e.key else op.key;
    var found := if key in m then Some(m[key]) else None;
    match op
    case FindOp(_) => (m, found)
    case AddOp(e) => (if key in m then m else m[key := e], found)
    case DeleteOp(_) => (m - {key}, found)
  }

  function Model(m: map<Key, Elem>, ops: seq<Op>): (map<Key, Elem>, seq<Option<Elem>>)
    decreases |ops|
  {
    if ops == [] then (m, [])
    else
      var (m1, answer) := Apply(m, ops[0]);
      var (m2, answers) := Model(m1, ops[1..]);
      (m2, [answer] + answers)
  }

  ghost function Content(s: seq<Elem>): map<Key, Elem> {
    if s == [] then map[] else var e := s[|s| - 1]; Content(s[..|s| - 1])[e.key := e]
  }

  lemma {:induction false} ContentHolds(s: seq<Elem>, key: Key)
    ensures key in Content(s) ==> Content(s)[key] in s && Content(s)[key].key == key
    ensures forall e :: e in s ==> e.key in Content(s)
  {
    if s != [] {
      ContentHolds(s[..|s| - 1], key);
      assert s == s[..|s| - 1] + [s[|s| - 1]];
    }
  }

  lemma UniqueIndex(s: seq<Elem>, i: nat, j: nat)
    requires UniqueKeys(s) && i < |s| && j < |s| && s[i].key == s[j].key
    ensures i == j
  {
  }

  /** With unique keys, an element of the list is what its key finds. */
  lemma ContentFinds(s: seq<Elem>, e: Elem)
    requires UniqueKeys(s) && e in s
    ensures e.key in Content(s) && Content(s)[e.key] == e
  {
    ContentHolds(s, e.key);
    var f := Content(s)[e.key];
    var i :| 0 <= i < |s| && s[i] == e;
    var j :| 0 <= j < |s| && s[j] == f;
    UniqueIndex(s, i, j);
  }

  lemma ContentAppend(s: seq<Elem>, e: Elem)
    ensures Content(s + [e]) == Content(s)[e.key := e]
  {
    assert (s + [e])[..|s|] == s;
  }

  lemma ContentWithout(s: seq<Elem>, del: Elem)
    requires UniqueKeys(s) && Distinct(s) && del in s
    ensures Content(Without(s, del)) == Content(s) - {del.key}
  {
    var t := Without(s, del);
    WithoutMembers(s, del);
    UniqueKeysWithout(s, del);
    ContentFinds(s, del);
    forall key
      ensures key in Content(t) <==> key in Content(s) && key != del.key
      ensures key in Content(t) ==> Content(t)[key] == Content(s)[key]
    {
      ContentHolds(s, key);
      ContentHolds(t, key);
      if key in Content(t) {
        ContentFinds(s, Content(t)[key]);
      }
      if key in Content(s) && key != del.key {
        assert Content(s)[key] in t;
      }
    }
  }

  lemma HashContent(h: Hash)
    requires h.Valid()
    ensures UniqueKeys(h.order) && Distinct(h.order)
  {
    LinkedDistinct(h.order);
  }

  /** What a find answers, in terms of the content. */
  lemma FindAnswers(h: Hash, key: Key, out: Elem?)
    requires h.Valid()
    requires out != null ==> out in h.order && out.key == key
    requires out == null ==> forall e :: e in h.order ==> e.key != key
    ensures out != null ==> key in Content(h.order) && Content(h.order)[key] == out
    ensures out == null ==> key !in Content(h.order)
  {
    HashContent(h);
    if out != null {
      ContentFinds(h.order, out);
    } else {
      ContentHolds(h.order, key);
    }
  }

  /** One operation, as the database uses the table: an addition looks first whether its key is taken. */
  method Perform(h: Hash, op: Op) returns (answer: Option<Elem>)
    requires h.Valid()
    modifies h.Repr, if op.AddOp? then {op.e} else {}
    ensures h.Valid() && fresh(h.Repr - old(h.Repr) - if op.AddOp? then {op.e} else {})
    ensures (Content(h.order), answer) == Apply(old(Content(h.order)), op)
  {
    hide Hash.Valid, Without, Linked, UniqueKeys, Content, Distinct;
    var key := if op.AddOp? then op.e.key else op.key;
    var out := h.Find(key);
    FindAnswers(h, key, out);
    answer := if out == null then None else Some(out);
    match op
    case FindOp(_) =>
    case AddOp(e) =>
      if out == null {
        ContentAppend(h.order, e);
        h.Add(e);
      }
    case DeleteOp(_) =>
      if out != null {
        HashContent(h);
        ContentWithout(h.order, out);
        h.Delete(out);
      } else {
        assert Content(h.order) - {key} == Content(h.order);
      }
  }

  /** The elements a run may add. */
  ghost function Added(ops: seq<Op>): set<object> {
    set i | 0 <= i < |ops| && ops[i].AddOp? :: ops[i].e
  }

  /**
   Every run from a NULL head, over any hash function and with or without a
   Bloom filter, answers as the map does.
   */
  method Run(fcn: HashFcn, bloomBits: Option<nat>, ops: seq<Op>) returns (h: Hash, answers: seq<Option<Elem>>)
    modifies Added(ops)
    ensures h.Valid() && (Content(h.order), answers) == Model(map[], ops)
  {
    hide Hash.Valid, Content, Apply;
    h := new Hash(fcn, bloomBits);
    answers := [];
    EmptyContent();
    assert ops[0..] == ops && [] + Model(map[], ops).1 == Model(map[], ops).1;
    var i := 0;
    while i < |ops|
      invariant i <= |ops| && h.Valid() && fresh(h.Repr - Added(ops))
      invariant Model(Content(h.order), ops[i..]).0 == Model(map[], ops).0
      invariant answers + Model(Content(h.order), ops[i..]).1 == Model(map[], ops).1
    {
      ghost var before := Content(h.order);
      assert ops[i].AddOp? ==> ops[i].e in Added(ops);
      var answer := Perform(h, ops[i]);
      ModelStep(before, ops[i..], answers);
      answers := answers + [answer];
      i := i + 1;
      assert ops[i - 1..][1..] == ops[i..];
    }
    assert answers + [] == answers;
  }

  lemma EmptyContent()
    ensures Content([]) == map[]
  {
  }

  lemma ModelStep(m: map<Key, Elem>, ops: seq<Op>, answers: seq<Option<Elem>>)
    requires ops != []
    ensures var (m1, answer) := Apply(m, ops[0]);
            var (m2, rest) := Model(m1, ops[1..]);
            && Model(m, ops).0 == m2
            && answers + Model(m, ops).1 == (answers + [answer]) + rest
  {
  }
}
