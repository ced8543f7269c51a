/**
 * `Chef::JSON.rework_object` (chef/lib/chef/json.rb): a bottom-up walk over a
 * decoded tree that rebuilds Arrays and Hashes and turns every rebuilt Hash
 * that includes "json_class" into a domain object.
 *
 * The walk is pure, so reworking every child first and then combining the
 * outcomes in source order (stopping at the first error) gives exactly what
 * Ruby's early-exiting loops give.
 */
module Reconstruction {
  import opened Wrappers
  import opened TypePaths
  import opened JsonValues

  /** A Hash entry whose value has been reworked, or whose rework raised. */
  datatype Pending = Pending(key: string, outcome: Result<Value, Error>)

  /**
   * The tagged-Hash branch: resolve the tag as a type path and hand the whole
   * rebuilt Hash, tag included, to `json_create` when the type has it and to
   * `new` otherwise.
   */
  function Instantiate(ns: Namespace, h: seq<Member>): (r: Result<Value, Error>)
    requires HasKey(h, JsonClass)
    ensures r.Success? ==> r.value.Constructed? && r.value.payload == h
    ensures r.Success? ==> r.value.viaFactory == HasFactory(ns, r.value.klass)
    ensures r.Success? <==>
      Get(h, JsonClass).Str? && Resolve(ns, ObjectId, Split(Get(h, JsonClass).s)).Success?
    ensures r.Success? ==> Resolve(ns, ObjectId, Split(Get(h, JsonClass).s)) == Success(r.value.klass)
    ensures Get(h, JsonClass).Str? && Resolve(ns, ObjectId, Split(Get(h, JsonClass).s)).Failure? ==>
      r == Failure(NameError(Resolve(ns, ObjectId, Split(Get(h, JsonClass).s)).error))
    ensures !Get(h, JsonClass).Str? ==> r == Failure(TagNotAString(Get(h, JsonClass)))
  {
    match Get(h, JsonClass)
    case Str(path) =>
      (match Resolve(ns, ObjectId, Split(path))
       case Failure(e) => Failure(NameError(e))
       case Success(klass) => Success(Constructed(klass, HasFactory(ns, klass), h)))
    case tag => Failure(TagNotAString(tag))
  }

  /** `rework_object(obj)` */
  function Rework(ns: Namespace, v: Value): Result<Value, Error>
    decreases v, 1
  {
    match v
    case Array(items) =>
      (match Collect(ReworkEach(ns, items))
       case Failure(e) => Failure(e)
       case Success(rs) => Success(Array(rs)))
    case Object(members) =>
      (match StoreAll(ReworkEntries(ns, members))
       case Failure(e) => Failure(e)
       case Success(h) => if HasKey(h, JsonClass) then Instantiate(ns, h) else Success(Object(h)))
    case _ => Success(v)
  }

  /** The outcome of reworking each element of an Array. */
  function ReworkEach(ns: Namespace, items: seq<Value>): (r: seq<Result<Value, Error>>)
    ensures |r| == |items|
    ensures forall i :: 0 <= i < |items| ==> r[i] == Rework(ns, items[i])
    decreases items, 0
  {
    seq(|items|, i requires 0 <= i < |items| => Rework(ns, items[i]))
  }

  /** The outcome of reworking each value of a Hash, beside its key. */
  function ReworkEntries(ns: Namespace, members: seq<Member>): (r: seq<Pending>)
    ensures |r| == |members|
    ensures forall i :: 0 <= i < |members| ==>
      r[i] == Pending(members[i].key, Rework(ns, members[i].value))
    decreases members, 0
  {
    seq(|members|, i requires 0 <= i < |members| => Pending(members[i].key, Rework(ns, members[i].value)))
  }

  /** `map`: the element values in order, or the first error. */
  function Collect(rs: seq<Result<Value, Error>>): (r: Result<seq<Value>, Error>)
    ensures r.Success? ==> |r.value| == |rs|
  {
    if rs == [] then Success([])
    else
      match rs[0]
      case Failure(e) => Failure(e)
      case Success(x) =>
        match Collect(rs[1..])
        case Failure(e) => Failure(e)
        case Success(xs) => Success([x] + xs)
  }

  /** The Hash `new_obj` after `new_obj[k] = ...` has run for every entry, in order. */
  function StoreAll(ps: seq<Pending>): Result<seq<Member>, Error> {
    if ps == [] then Success([])
    else
      var last := ps[|ps| - 1];
      match StoreAll(ps[..|ps| - 1])
      case Failure(e) => Failure(e)
      case Success(acc) =>
        match last.outcome
        case Failure(e) => Failure(e)
        case Success(x) => Success(Store(acc, last.key, x))
  }

  /** The `each_pair` loop that fills `new_obj`. */
  method RebuildHash(ns: Namespace, members: seq<Member>) returns (r: Result<seq<Member>, Error>)
    ensures r == StoreAll(ReworkEntries(ns, members))
  {
    ghost var ps := ReworkEntries(ns, members);
    var newObj: seq<Member> := [];
    var i := 0;
    while i < |members|
      invariant 0 <= i <= |members|
      invariant StoreAll(ps[..i]) == Success(newObj)
    {
      var reworked := Rework(ns, members[i].value);
      assert ps[..i + 1][..i] == ps[..i];
      assert ps[i] == Pending(members[i].key, reworked);
      if reworked.Failure? {
        StoreAllFailurePersists(ps, i + 1);
        return Failure(reworked.error);
      }
      newObj := Store(newObj, members[i].key, reworked.value);
      i := i + 1;
    }
    assert ps[..i] == ps;
    return Success(newObj);
  }

  // ---------------------------------------------------------------------------
  // Combining the outcomes
  // ---------------------------------------------------------------------------

  /** Outcome `i` is the first failure among `rs`, and it is `e`. */
  predicate FirstFailureAt(rs: seq<Result<Value, Error>>, i: int, e: Error) {
    && 0 <= i < |rs|
    && rs[i] == Failure(e)
    && forall j :: 0 <= j < i ==> rs[j].Success?
  }

  function Outcomes(ps: seq<Pending>): (r: seq<Result<Value, Error>>)
    ensures |r| == |ps| && forall i :: 0 <= i < |ps| ==> r[i] == ps[i].outcome
  {
    seq(|ps|, i requires 0 <= i < |ps| => ps[i].outcome)
  }

  predicate DistinctPendingKeys(ps: seq<Pending>) {
    forall i, j :: 0 <= i < j < |ps| ==> ps[i].key != ps[j].key
  }

  /** Collecting keeps length and order, and reports the first failure. */
  lemma {:induction false} CollectElementwise(rs: seq<Result<Value, Error>>)
    ensures Collect(rs).Success? <==> forall i :: 0 <= i < |rs| ==> rs[i].Success?
    ensures Collect(rs).Success? ==>
      |Collect(rs).value| == |rs| && forall i :: 0 <= i < |rs| ==> Collect(rs).value[i] == rs[i].value
    ensures Collect(rs).Failure? ==> exists i :: FirstFailureAt(rs, i, Collect(rs).error)
  {
    if rs != [] {
      var tail := rs[1..];
      CollectElementwise(tail);
      assert forall i :: 1 <= i < |rs| ==> rs[i] == tail[i - 1];
      if rs[0].Failure? {
        assert FirstFailureAt(rs, 0, rs[0].error);
      } else if Collect(tail).Failure? {
        var k :| FirstFailureAt(tail, k, Collect(tail).error);
        assert FirstFailureAt(rs, k + 1, Collect(tail).error);
      }
    }
  }

  /** Once storing some entry has failed, the whole loop fails with that error. */
  lemma {:induction false} StoreAllFailurePersists(ps: seq<Pending>, i: nat)
    requires i <= |ps|
    requires StoreAll(ps[..i]).Failure?
    ensures StoreAll(ps) == StoreAll(ps[..i])
    decreases |ps| - i
  {
    if i < |ps| {
      assert ps[..i + 1][..i] == ps[..i];
      StoreAllFailurePersists(ps, i + 1);
    } else {
      assert ps[..i] == ps;
    }
  }

  /** A loop that finishes has seen no failure. */
  lemma {:induction false} StoreAllSucceeds(ps: seq<Pending>)
    requires StoreAll(ps).Success?
    ensures forall i :: 0 <= i < |ps| ==> ps[i].outcome.Success?
  {
    if ps != [] {
      var n := |ps| - 1;
      assert StoreAll(ps[..n]).Success? && ps[n].outcome.Success?;
      StoreAllSucceeds(ps[..n]);
      assert forall i :: 0 <= i < n ==> ps[i] == ps[..n][i];
    }
  }

  /**
   * With distinct keys, the rebuilt Hash has the same keys in the same order,
   * each with its reworked value, whenever no rework fails.
   */
  lemma {:induction false} StoreAllKeepsKeys(ps: seq<Pending>)
    requires DistinctPendingKeys(ps)
    requires forall i :: 0 <= i < |ps| ==> ps[i].outcome.Success?
    ensures StoreAll(ps).Success?
    ensures |StoreAll(ps).value| == |ps|
    ensures forall i :: 0 <= i < |ps| ==>
      StoreAll(ps).value[i] == Member(ps[i].key, ps[i].outcome.value)
  {
    if ps != [] {
      var n := |ps| - 1;
      var prefix := ps[..n];
      assert forall i :: 0 <= i < n ==> prefix[i] == ps[i];
      assert DistinctPendingKeys(prefix);
      StoreAllKeepsKeys(prefix);
      var acc := StoreAll(prefix).value;
      var key, x := ps[n].key, ps[n].outcome.value;
      assert !HasKey(acc, key) by {
        forall j | 0 <= j < |acc| ensures acc[j].key != key {
          assert acc[j].key == ps[j].key;
        }
      }
      var h := acc + [Member(key, x)];
      assert Store(acc, key, x) == h;
      assert StoreAll(ps) == Success(h);
      forall i | 0 <= i < |ps| ensures h[i] == Member(ps[i].key, ps[i].outcome.value) {
        if i < n {
          assert h[i] == acc[i];
        }
      }
    }
  }

  /** The loop fails with the first failing outcome. */
  lemma {:induction false} StoreAllFailsFirst(ps: seq<Pending>)
    ensures StoreAll(ps).Failure? ==> exists i :: FirstFailureAt(Outcomes(ps), i, StoreAll(ps).error)
  {
    if ps != [] {
      var n := |ps| - 1;
      var prefix := ps[..n];
      StoreAllFailsFirst(prefix);
      assert forall i :: 0 <= i < n ==> Outcomes(prefix)[i] == Outcomes(ps)[i];
      if StoreAll(prefix).Failure? {
        var k :| FirstFailureAt(Outcomes(prefix), k, StoreAll(prefix).error);
        assert FirstFailureAt(Outcomes(ps), k, StoreAll(prefix).error);
      } else if ps[n].outcome.Failure? {
        StoreAllSucceeds(prefix);
        assert forall i :: 0 <= i < n ==> Outcomes(ps)[i] == prefix[i].outcome;
        assert FirstFailureAt(Outcomes(ps), n, ps[n].outcome.error);
      }
    }
  }

  /** Whatever it is given, the rebuilt Hash never holds a key twice. */
  lemma {:induction false} StoreAllDistinct(ps: seq<Pending>)
    ensures StoreAll(ps).Success? ==> DistinctKeys(StoreAll(ps).value)
  {
    if ps != [] {
      var n := |ps| - 1;
      StoreAllDistinct(ps[..n]);
      if StoreAll(ps[..n]).Success? && ps[n].outcome.Success? {
        StoreKeepsKeysDistinct(StoreAll(ps[..n]).value, ps[n].key, ps[n].outcome.value);
      }
    }
  }

  /** Every value of the rebuilt Hash is the successful outcome of some entry. */
  lemma {:induction false} StoreAllValuesFromOutcomes(ps: seq<Pending>)
    ensures StoreAll(ps).Success? ==>
      forall i :: 0 <= i < |StoreAll(ps).value| ==>
        exists j :: 0 <= j < |ps| && ps[j].outcome == Success(StoreAll(ps).value[i].value)
  {
    if ps != [] {
      var n := |ps| - 1;
      var prefix := ps[..n];
      StoreAllValuesFromOutcomes(prefix);
      if StoreAll(prefix).Success? && ps[n].outcome.Success? {
        var acc := StoreAll(prefix).value;
        var x := ps[n].outcome.value;
        var h := Store(acc, ps[n].key, x);
        StoreOnlyAddsEntry(acc, ps[n].key, x);
        forall i | 0 <= i < |h|
          ensures exists j :: 0 <= j < |ps| && ps[j].outcome == Success(h[i].value)
        {
          if h[i] == Member(ps[n].key, x) {
            assert ps[n].outcome == Success(h[i].value);
          } else {
            var a :| 0 <= a < |acc| && acc[a] == h[i];
            var j :| 0 <= j < |prefix| && prefix[j].outcome == Success(acc[a].value);
            assert ps[j] == prefix[j];
          }
        }
      }
    }
  }

  // ---------------------------------------------------------------------------
  // What `rework_object` does to each kind of value
  // ---------------------------------------------------------------------------

  /** Anything that is neither an Array nor a Hash is returned as it is. */
  lemma ReworkScalar(ns: Namespace, v: Value)
    requires !v.Array? && !v.Object?
    ensures Rework(ns, v) == Success(v)
  {
  }

  /** An Array is reworked element by element, keeping its length and order. */
  lemma ReworkArray(ns: Namespace, items: seq<Value>)
    ensures Rework(ns, Array(items)).Success? <==>
      forall i :: 0 <= i < |items| ==> Rework(ns, items[i]).Success?
    ensures Rework(ns, Array(items)).Success? ==>
      && Rework(ns, Array(items)).value.Array?
      && |Rework(ns, Array(items)).value.items| == |items|
      && forall i :: 0 <= i < |items| ==>
           Rework(ns, Array(items)).value.items[i] == Rework(ns, items[i]).value
    ensures Rework(ns, Array(items)).Failure? ==>
      exists i :: FirstFailureAt(ReworkEach(ns, items), i, Rework(ns, Array(items)).error)
  {
    CollectElementwise(ReworkEach(ns, items));
  }

  /**
   * A Hash without "json_class" comes back as a Hash with exactly the same
   * keys in the same order, each value reworked; the first value whose
   * rework fails makes the whole rework fail.
   */
  lemma ReworkUntaggedObject(ns: Namespace, members: seq<Member>)
    requires DistinctKeys(members)
    requires !HasKey(members, JsonClass)
    ensures Rework(ns, Object(members)).Success? <==>
      forall i :: 0 <= i < |members| ==> Rework(ns, members[i].value).Success?
    ensures Rework(ns, Object(members)).Success? ==>
      && Rework(ns, Object(members)).value.Object?
      && Keys(Rework(ns, Object(members)).value.members) == Keys(members)
      && forall i :: 0 <= i < |members| ==>
           Rework(ns, Object(members)).value.members[i].value == Rework(ns, members[i].value).value
    ensures Rework(ns, Object(members)).Failure? ==>
      exists i :: FirstFailureAt(Outcomes(ReworkEntries(ns, members)), i, Rework(ns, Object(members)).error)
  {
    if forall i :: 0 <= i < |members| ==> Rework(ns, members[i].value).Success? {
      RebuiltHash(ns, members);
      var h := StoreAll(ReworkEntries(ns, members)).value;
      assert !HasKey(h, JsonClass) by {
        forall j | 0 <= j < |h| ensures h[j].key != JsonClass {
          assert h[j].key == Keys(h)[j] == Keys(members)[j];
        }
      }
      assert Rework(ns, Object(members)) == Success(Object(h));
    } else {
      ReworkNestedFailureFirst(ns, members);
    }
  }

  /** The Hash the rebuild loop gives when every value reworks. */
  lemma RebuiltHash(ns: Namespace, members: seq<Member>)
    requires DistinctKeys(members)
    requires forall i :: 0 <= i < |members| ==> Rework(ns, members[i].value).Success?
    ensures StoreAll(ReworkEntries(ns, members)).Success?
    ensures var h := StoreAll(ReworkEntries(ns, members)).value;
      && Keys(h) == Keys(members)
      && forall i :: 0 <= i < |members| ==> h[i].value == Rework(ns, members[i].value).value
  {
    var ps := ReworkEntries(ns, members);
    StoreAllKeepsKeys(ps);
    var h := StoreAll(ps).value;
    forall i | 0 <= i < |members|
      ensures h[i].key == members[i].key && h[i].value == Rework(ns, members[i].value).value
    {
      assert ps[i] == Pending(members[i].key, Rework(ns, members[i].value));
    }
    assert Keys(h) == Keys(members);
  }

  /**
   * The values of a Hash are reworked before anything looks at its tag: a
   * value whose rework fails makes the whole rework fail, with the first
   * such error in insertion order, whatever the tag.
   */
  lemma ReworkNestedFailureFirst(ns: Namespace, members: seq<Member>)
    requires exists i :: 0 <= i < |members| && Rework(ns, members[i].value).Failure?
    ensures Rework(ns, Object(members)).Failure?
    ensures exists i :: FirstFailureAt(Outcomes(ReworkEntries(ns, members)), i, Rework(ns, Object(members)).error)
  {
    var ps := ReworkEntries(ns, members);
    StoreAllFailsFirst(ps);
    if StoreAll(ps).Success? {
      StoreAllSucceeds(ps);
    }
  }

  /**
   * A Hash with "json_class" whose values all rework: the tag is kept and the
   * rebuilt Hash is handed to the factory (`json_create`) when the resolved
   * type has one and to the constructor otherwise; a tag that is not a
   * String, or a path that does not resolve, makes the rework fail.
   */
  lemma ReworkTaggedValuesSucceed(ns: Namespace, members: seq<Member>)
    requires DistinctKeys(members)
    requires HasKey(members, JsonClass)
    requires forall i :: 0 <= i < |members| ==> Rework(ns, members[i].value).Success?
    ensures var r := Rework(ns, Object(members));
      var tag := Rework(ns, Get(members, JsonClass)).value;
      && (r.Success? ==>
            && r.value.Constructed?
            && Keys(r.value.payload) == Keys(members)
            && (forall i :: 0 <= i < |members| ==>
                  r.value.payload[i].value == Rework(ns, members[i].value).value)
            && r.value.viaFactory == HasFactory(ns, r.value.klass))
      && (tag.Str? ==>
            && (r.Success? <==> Resolve(ns, ObjectId, Split(tag.s)).Success?)
            && (r.Success? ==> r.value.klass == Resolve(ns, ObjectId, Split(tag.s)).value)
            && (r.Failure? ==> r.error == NameError(Resolve(ns, ObjectId, Split(tag.s)).error)))
      && (!tag.Str? ==> r == Failure(TagNotAString(tag)))
  {
    RebuiltTaggedHash(ns, members);
    var h := StoreAll(ReworkEntries(ns, members)).value;
    assert Rework(ns, Object(members)) == Instantiate(ns, h);
  }

  /** The Hash the rebuild loop gives for a tagged Hash whose values all rework. */
  lemma RebuiltTaggedHash(ns: Namespace, members: seq<Member>)
    requires DistinctKeys(members)
    requires HasKey(members, JsonClass)
    requires forall i :: 0 <= i < |members| ==> Rework(ns, members[i].value).Success?
    ensures StoreAll(ReworkEntries(ns, members)).Success?
    ensures var h := StoreAll(ReworkEntries(ns, members)).value;
      && Keys(h) == Keys(members)
      && (forall i :: 0 <= i < |members| ==> h[i].value == Rework(ns, members[i].value).value)
      && HasKey(h, JsonClass)
      && Get(h, JsonClass) == Rework(ns, Get(members, JsonClass)).value
  {
    RebuiltHash(ns, members);
    var h := StoreAll(ReworkEntries(ns, members)).value;
    var j := IndexOf(members, JsonClass);
    assert h[j].key == Keys(h)[j] == Keys(members)[j] == JsonClass;
    assert IndexOf(h, JsonClass) == j by {
      forall i | 0 <= i < j ensures h[i].key != JsonClass {
        assert h[i].key == Keys(h)[i] == Keys(members)[i];
      }
    }
  }

  /**
   * `rework_object` on a Hash with "json_class": values are reworked first,
   * and a failing value decides the outcome before the tag is looked at;
   * otherwise the tagged Hash is instantiated as above.
   */
  lemma ReworkTaggedObject(ns: Namespace, members: seq<Member>)
    requires DistinctKeys(members)
    requires HasKey(members, JsonClass)
    ensures (exists i :: 0 <= i < |members| && Rework(ns, members[i].value).Failure?) ==>
      && Rework(ns, Object(members)).Failure?
      && exists i :: FirstFailureAt(Outcomes(ReworkEntries(ns, members)), i, Rework(ns, Object(members)).error)
    ensures (forall i :: 0 <= i < |members| ==> Rework(ns, members[i].value).Success?) ==>
      var r := Rework(ns, Object(members));
      var tag := Rework(ns, Get(members, JsonClass)).value;
      && (r.Success? ==>
            && r.value.Constructed?
            && Keys(r.value.payload) == Keys(members)
            && (forall i :: 0 <= i < |members| ==>
                  r.value.payload[i].value == Rework(ns, members[i].value).value)
            && r.value.viaFactory == HasFactory(ns, r.value.klass))
      && (tag.Str? ==>
            && (r.Success? <==> Resolve(ns, ObjectId, Split(tag.s)).Success?)
            && (r.Success? ==> r.value.klass == Resolve(ns, ObjectId, Split(tag.s)).value)
            && (r.Failure? ==> r.error == NameError(Resolve(ns, ObjectId, Split(tag.s)).error)))
      && (!tag.Str? ==> r == Failure(TagNotAString(tag)))
  {
    if forall i :: 0 <= i < |members| ==> Rework(ns, members[i].value).Success? {
      ReworkTaggedValuesSucceed(ns, members);
    } else {
      ReworkNestedFailureFirst(ns, members);
    }
  }

  // ---------------------------------------------------------------------------
  // Trees the walk leaves alone
  // ---------------------------------------------------------------------------

  /** A tree with no "json_class" key anywhere (and Ruby's distinct keys) comes back unchanged. */
  lemma {:induction false} ReworkPlainIdentity(ns: Namespace, v: Value)
    requires Plain(v)
    ensures Rework(ns, v) == Success(v)
    decreases v
  {
    match v
    case Array(items) =>
      forall i | 0 <= i < |items| ensures Rework(ns, items[i]) == Success(items[i]) {
        ReworkPlainIdentity(ns, items[i]);
      }
      ReworkArray(ns, items);
      assert Rework(ns, v).value.items == items;
    case Object(members) =>
      forall i | 0 <= i < |members| ensures Rework(ns, members[i].value) == Success(members[i].value) {
        ReworkPlainIdentity(ns, members[i].value);
      }
      ReworkUntaggedObject(ns, members);
      var h := Rework(ns, v).value.members;
      assert forall i :: 0 <= i < |members| ==> h[i].key == Keys(h)[i] == Keys(members)[i];
      assert h == members;
    case _ =>
  }

  /** Whatever the walk returns is a tree it would leave alone. */
  lemma {:induction false} ReworkResultPlain(ns: Namespace, v: Value)
    ensures Rework(ns, v).Success? ==> Plain(Rework(ns, v).value)
    decreases v
  {
    match v
    case Array(items) =>
      forall i | 0 <= i < |items| ensures Rework(ns, items[i]).Success? ==> Plain(Rework(ns, items[i]).value) {
        ReworkResultPlain(ns, items[i]);
      }
      ReworkArray(ns, items);
    case Object(members) =>
      var ps := ReworkEntries(ns, members);
      if StoreAll(ps).Success? {
        var h := StoreAll(ps).value;
        StoreAllDistinct(ps);
        StoreAllValuesFromOutcomes(ps);
        forall i | 0 <= i < |h| ensures Plain(h[i].value) {
          var j :| 0 <= j < |ps| && ps[j].outcome == Success(h[i].value);
          ReworkResultPlain(ns, members[j].value);
        }
      }
    case _ =>
  }

  /** The walk leaves a tree unchanged exactly when the tree is plain. */
  lemma ReworkFixedPoint(ns: Namespace, v: Value)
    ensures Rework(ns, v) == Success(v) <==> Plain(v)
  {
    ReworkResultPlain(ns, v);
    if Plain(v) {
      ReworkPlainIdentity(ns, v);
    }
  }

  /** Reworking a reworked tree changes nothing. */
  lemma ReworkIdempotent(ns: Namespace, v: Value)
    requires Rework(ns, v).Success?
    ensures Rework(ns, Rework(ns, v).value) == Rework(ns, v)
  {
    ReworkResultPlain(ns, v);
    ReworkPlainIdentity(ns, Rework(ns, v).value);
  }
}
