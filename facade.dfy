/**
 * `Chef::JSON.from_json`, `to_json` and `to_json_pretty` for each of the two
 * backends of chef/lib/chef/json.rb. The libraries themselves are not part of
 * the model: a parser is a parameter, and for encoding only the option Hash
 * handed to the library is modelled.
 */
module Facade {
  import opened Wrappers
  import opened TypePaths
  import opened JsonValues
  import opened Reconstruction
  import opened Options

  /** Which library was loaded: Yajl when available, the json gem otherwise. */
  datatype Backend = Yajl | JsonGem

  /** The three library calls the facade makes. */
  datatype Call = Parse | Generate | PrettyGenerate

  /** The option Hash a backend hands to the library for a call. */
  function LibraryOptions(b: Backend, call: Call, opts: Option<OptMap>): (r: OptMap)
    ensures forall k :: k in OrEmpty(opts) ==> k in r && r[k] == OrEmpty(opts)[k]
    ensures b == JsonGem ==>
      r.Keys == OrEmpty(opts).Keys + {MaxNesting} &&
      (MaxNesting !in OrEmpty(opts) ==> r[MaxNesting] == Int(JsonMaxNesting))
    ensures b == Yajl && call != PrettyGenerate ==> r.Keys == OrEmpty(opts).Keys
    ensures b == Yajl && call == PrettyGenerate ==>
      r.Keys == OrEmpty(opts).Keys + {Pretty} &&
      (Pretty !in OrEmpty(opts) ==> r[Pretty] == Flag(true))
  {
    match b
    case Yajl => if call == PrettyGenerate then PrettyMerge(opts) else OrEmpty(opts)
    case JsonGem => WithMaxNesting(opts)
  }

  /**
   * `from_json(source, opts)`: parse with the backend's options; only the
   * Yajl backend reworks the parsed tree. A parser error reaches the caller
   * unchanged on either backend.
   */
  function FromJson(b: Backend, ns: Namespace, parse: (string, OptMap) -> Result<Value, Error>,
                    source: string, opts: Option<OptMap>): (r: Result<Value, Error>)
    ensures parse(source, LibraryOptions(b, Parse, opts)).Failure? ==>
      r == parse(source, LibraryOptions(b, Parse, opts))
    ensures r.Success? ==> parse(source, LibraryOptions(b, Parse, opts)).Success?
    ensures b == Yajl && parse(source, LibraryOptions(b, Parse, opts)).Success? ==>
      r == Rework(ns, parse(source, LibraryOptions(b, Parse, opts)).value)
    ensures b == JsonGem ==> r == parse(source, LibraryOptions(b, Parse, opts))
  {
    match b
    case Yajl =>
      (match parse(source, LibraryOptions(b, Parse, opts))
       case Failure(e) => Failure(e)
       case Success(tree) => Rework(ns, tree))
    case JsonGem => parse(source, LibraryOptions(b, Parse, opts))
  }

  /**
   * When the parser yields a tree without "json_class" keys, both backends
   * return exactly that tree.
   */
  lemma FromJsonPlain(b: Backend, ns: Namespace, parse: (string, OptMap) -> Result<Value, Error>,
                      source: string, opts: Option<OptMap>)
    requires parse(source, LibraryOptions(b, Parse, opts)).Success?
    requires Plain(parse(source, LibraryOptions(b, Parse, opts)).value)
    ensures FromJson(b, ns, parse, source, opts) == parse(source, LibraryOptions(b, Parse, opts))
  {
    ReworkPlainIdentity(ns, parse(source, LibraryOptions(b, Parse, opts)).value);
  }

  /**
   * A parsed Hash carrying a "json_class" key is where the backends part:
   * the json gem hands back the Hash itself, tag included, while Yajl never
   * does. Yajl either fails (the first failing value, or the class lookup)
   * or returns an object of the named class built from the reworked Hash.
   */
  lemma FromJsonTagged(b: Backend, ns: Namespace, parse: (string, OptMap) -> Result<Value, Error>,
                       source: string, opts: Option<OptMap>, members: seq<Member>)
    requires parse(source, LibraryOptions(b, Parse, opts)) == Success(Object(members))
    requires DistinctKeys(members) && HasKey(members, JsonClass)
    ensures b == JsonGem ==> FromJson(b, ns, parse, source, opts) == Success(Object(members))
    ensures b == Yajl ==> FromJson(b, ns, parse, source, opts) != Success(Object(members))
    ensures b == Yajl && (exists i :: 0 <= i < |members| && Rework(ns, members[i].value).Failure?) ==>
      && FromJson(b, ns, parse, source, opts).Failure?
      && exists i :: FirstFailureAt(Outcomes(ReworkEntries(ns, members)), i,
                                    FromJson(b, ns, parse, source, opts).error)
    ensures b == Yajl && FromJson(b, ns, parse, source, opts).Success? ==>
      var v := FromJson(b, ns, parse, source, opts).value;
      && v.Constructed?
      && Keys(v.payload) == Keys(members)
      && (forall i :: 0 <= i < |members| ==> v.payload[i].value == Rework(ns, members[i].value).value)
      && Get(v.payload, JsonClass).Str?
      && Resolve(ns, ObjectId, Split(Get(v.payload, JsonClass).s)) == Success(v.klass)
  {
    if b == Yajl {
      ReworkTaggedObject(ns, members);
      if FromJson(b, ns, parse, source, opts).Success? {
        var v := FromJson(b, ns, parse, source, opts).value;
        assert v.Constructed?;
      }
    }
  }

  /** What the Yajl backend returns holds no Hash with a "json_class" key. */
  lemma FromJsonYajlSettled(ns: Namespace, parse: (string, OptMap) -> Result<Value, Error>,
                            source: string, opts: Option<OptMap>)
    requires FromJson(Yajl, ns, parse, source, opts).Success?
    ensures Plain(FromJson(Yajl, ns, parse, source, opts).value)
  {
    ReworkResultPlain(ns, parse(source, LibraryOptions(Yajl, Parse, opts)).value);
  }
}
