/**
 * The option Hashes `Chef::JSON` hands to the JSON libraries
 * (chef/lib/chef/json.rb): the max-nesting default of the json-gem backend
 * and the pretty flag of the Yajl backend.
 */
module Options {
  import opened Wrappers

  /** A Ruby Symbol, by name. */
  type Symbol = string

  const MaxNesting: Symbol := "max_nesting"
  const Pretty: Symbol := "pretty"

  /** `JSON_MAX_NESTING`: deep enough for a Node held inside a Node. */
  const JsonMaxNesting: int := 1000

  datatype OptValue = Nil | Flag(b: bool) | Int(i: int) | Text(s: string)

  type OptMap = map<Symbol, OptValue>

  /** `opts || {}`: a missing option Hash reads as an empty one. */
  function OrEmpty(opts: Option<OptMap>): (r: OptMap)
    ensures opts.Some? ==> r == opts.value
    ensures opts.None? ==> |r| == 0
  {
    if opts.Some? then opts.value else map[]
  }

  /** `base.merge(other)`: every key of both, the value of `other` winning. */
  function Merge(base: OptMap, other: OptMap): (r: OptMap)
    ensures r.Keys == base.Keys + other.Keys
    ensures forall k :: k in other ==> r[k] == other[k]
    ensures forall k :: k in base && k !in other ==> r[k] == base[k]
  {
    base + other
  }

  /**
   * The Hash `opts_add_max_nesting(opts)` returns: the caller's options with
   * `:max_nesting` set to 1000 unless the caller already chose a value.
   */
  function WithMaxNesting(opts: Option<OptMap>): (r: OptMap)
    ensures MaxNesting in r
    ensures r.Keys == OrEmpty(opts).Keys + {MaxNesting}
    ensures forall k :: k in OrEmpty(opts) ==> r[k] == OrEmpty(opts)[k]
    ensures MaxNesting !in OrEmpty(opts) ==> r[MaxNesting] == Int(JsonMaxNesting)
    ensures opts.None? ==> r == map[MaxNesting := Int(JsonMaxNesting)]
  {
    match opts
    case None => map[MaxNesting := Int(JsonMaxNesting)]
    case Some(m) => if MaxNesting in m then m else m[MaxNesting := Int(JsonMaxNesting)]
  }

  /** Adding the default twice is the same as adding it once. */
  lemma WithMaxNestingIdempotent(opts: Option<OptMap>)
    ensures WithMaxNesting(Some(WithMaxNesting(opts))) == WithMaxNesting(opts)
  {
  }

  /**
   * The Hash `{ :pretty => true }.merge(opts || {})`: the caller's options
   * with `:pretty` true unless the caller chose a value for it.
   */
  function PrettyMerge(opts: Option<OptMap>): (r: OptMap)
    ensures Pretty in r
    ensures r.Keys == OrEmpty(opts).Keys + {Pretty}
    ensures forall k :: k in OrEmpty(opts) ==> r[k] == OrEmpty(opts)[k]
    ensures Pretty !in OrEmpty(opts) ==> r[Pretty] == Flag(true)
  {
    Merge(map[Pretty := Flag(true)], OrEmpty(opts))
  }

  /** What Ruby raises on a store into a frozen Hash. */
  datatype HashError = FrozenError

  /** A Ruby Hash of options, changed in place, and possibly frozen. */
  class OptionHash {
    var entries: OptMap
    var frozen: bool

    /** A new, unfrozen Hash holding `entries` (`Hash.new` when empty). */
    constructor (entries: OptMap)
      ensures this.entries == entries && !frozen
    {
      this.entries := entries;
      frozen := false;
    }

    /** `has_key?(k)` */
    predicate HasKey(k: Symbol)
      reads this
    {
      k in entries
    }

    /** `freeze`: later stores raise. */
    method Freeze()
      modifies this
      ensures entries == old(entries) && frozen
    {
      frozen := true;
    }

    /** `clone`: a new Hash with the same entries, frozen when this one is. */
    method Clone() returns (c: OptionHash)
      ensures fresh(c) && c.entries == entries && c.frozen == frozen
    {
      c := new OptionHash(entries);
      c.frozen := frozen;
    }

    /** `self[k] = v`, which raises on a frozen Hash and leaves it as it was. */
    method Store(k: Symbol, v: OptValue) returns (r: Result<(), HashError>)
      modifies this
      ensures frozen == old(frozen)
      ensures r.Success? <==> !old(frozen)
      ensures r.Failure? ==> r.error == FrozenError
      ensures entries == if old(frozen) then old(entries) else old(entries)[k := v]
    {
      if frozen {
        return Failure(FrozenError);
      }
      entries := entries[k := v];
      return Success(());
    }
  }

  /**
   * `opts_add_max_nesting(opts)`. It may change only Hashes it allocates, so
   * the caller's Hash is never modified; when the caller's Hash already holds
   * `:max_nesting`, that very Hash is returned. A caller's Hash without
   * `:max_nesting` is cloned, and the clone of a frozen Hash is frozen too, so
   * the store into it raises.
   */
  method AddMaxNesting(opts: OptionHash?) returns (r: Result<OptionHash, HashError>)
    ensures opts != null ==> opts.entries == old(opts.entries) && opts.frozen == old(opts.frozen)
    ensures r.Failure? <==> opts != null && MaxNesting !in opts.entries && opts.frozen
    ensures r.Failure? ==> r.error == FrozenError
    ensures r.Success? ==>
      r.value.entries == WithMaxNesting(if opts == null then None else Some(opts.entries))
    ensures opts != null && MaxNesting in opts.entries ==> r == Success(opts)
    ensures r.Success? && (opts == null || MaxNesting !in opts.entries) ==>
      fresh(r.value) && !r.value.frozen
  {
    if opts == null || !opts.HasKey(MaxNesting) {
      var h: OptionHash;
      if opts == null {
        h := new OptionHash(map[]);
      } else {
        h := opts.Clone();
      }
      var stored := h.Store(MaxNesting, Int(JsonMaxNesting));
      if stored.Failure? {
        return Failure(stored.error);
      }
      r := Success(h);
    } else {
      r := Success(opts);
    }
  }
}
