/**
 * The Ruby values a JSON parser hands to `Chef::JSON.rework_object`, and the
 * one value `rework_object` adds: a domain object built from a tagged Hash.
 */
module JsonValues {
  import opened Wrappers
  import opened TypePaths

  /** The reserved key that marks a decoded Hash as a serialized domain object. */
  const JsonClass: string := "json_class"

  /** One key/value entry of a Ruby Hash. */
  datatype Member = Member(key: string, value: Value)

  datatype Value =
    | Null
    | Bool(b: bool)
    | Number(n: int)
    | Str(s: string)
    | Array(items: seq<Value>)
    | Object(members: seq<Member>)
      /** What `klass.json_create(h)` (viaFactory) or `klass.new(h)` returned. */
    | Constructed(klass: ConstId, viaFactory: bool, payload: seq<Member>)

  /** Errors raised while reworking a decoded tree or by the parser. */
  datatype Error =
    | NameError(lookup: LookupError)  // `const_get` found no such constant
    | TagNotAString(tag: Value)       // `split` called on a tag that is not a String
    | ParserError(message: string)    // raised by the JSON library

  /** The keys of a Hash, in insertion order. */
  function Keys(h: seq<Member>): (r: seq<string>)
    ensures |r| == |h|
    ensures forall i :: 0 <= i < |h| ==> r[i] == h[i].key
  {
    seq(|h|, i requires 0 <= i < |h| => h[i].key)
  }

  /** The values of a Hash, in insertion order. */
  function Values(h: seq<Member>): (r: seq<Value>)
    ensures |r| == |h|
    ensures forall i :: 0 <= i < |h| ==> r[i] == h[i].value
  {
    seq(|h|, i requires 0 <= i < |h| => h[i].value)
  }

  /** `h.include?(k)` */
  predicate HasKey(h: seq<Member>, k: string) {
    exists i :: 0 <= i < |h| && h[i].key == k
  }

  /** A Ruby Hash never holds a key twice. */
  predicate DistinctKeys(h: seq<Member>) {
    forall i, j :: 0 <= i < j < |h| ==> h[i].key != h[j].key
  }

  /** The position of the first entry with key `k`. */
  function IndexOf(h: seq<Member>, k: string): (i: nat)
    requires HasKey(h, k)
    ensures i < |h| && h[i].key == k
    ensures forall j :: 0 <= j < i ==> h[j].key != k
  {
    if h[0].key == k then 0
    else
      assert exists i :: 0 <= i < |h[1..]| && h[1..][i].key == k by {
        var i :| 0 <= i < |h| && h[i].key == k;
        assert h[1..][i - 1].key == k;
      }
      1 + IndexOf(h[1..], k)
  }

  /** `h[k]` for a key the Hash includes. */
  function Get(h: seq<Member>, k: string): Value
    requires HasKey(h, k)
  {
    h[IndexOf(h, k)].value
  }

  /**
   * `h[k] = v`: a key already present keeps its position and gets the new
   * value; a new key is appended at the end.
   */
  function Store(h: seq<Member>, k: string, v: Value): (r: seq<Member>)
    ensures HasKey(h, k) ==> Keys(r) == Keys(h)
    ensures !HasKey(h, k) ==> r == h + [Member(k, v)]
    ensures HasKey(r, k) && Get(r, k) == v
  {
    if HasKey(h, k) then
      var i := IndexOf(h, k);
      var r := h[i := Member(k, v)];
      assert forall j :: 0 <= j < i ==> r[j].key != k;
      r
    else
      var r := h + [Member(k, v)];
      assert r[|h|].key == k;
      assert forall j :: 0 <= j < |h| ==> r[j].key != k;
      r
  }

  /** Storing adds no entry other than the stored one. */
  lemma StoreOnlyAddsEntry(h: seq<Member>, k: string, v: Value)
    ensures forall j :: 0 <= j < |Store(h, k, v)| ==> Store(h, k, v)[j] in h || Store(h, k, v)[j] == Member(k, v)
  {
  }

  /** Storing into a Hash keeps its keys distinct. */
  lemma StoreKeepsKeysDistinct(h: seq<Member>, k: string, v: Value)
    requires DistinctKeys(h)
    ensures DistinctKeys(Store(h, k, v))
  {
  }

  /**
   * A tree `rework_object` leaves as it is: every Hash reachable without
   * entering a constructed object has distinct keys and no "json_class" key.
   */
  predicate Plain(v: Value) {
    match v
    case Array(items) => forall i :: 0 <= i < |items| ==> Plain(items[i])
    case Object(members) =>
      && DistinctKeys(members)
      && !HasKey(members, JsonClass)
      && forall i :: 0 <= i < |members| ==> Plain(members[i].value)
    case _ => true
  }
}
