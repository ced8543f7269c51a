/**
 * Resolution of a `::`-separated type path such as "Chef::Node" against
 * Ruby's constant namespace (`Chef::JSON.constantize`, chef/lib/chef/json.rb).
 *
 * Ruby reflection is replaced by a finite registry: every constant has an
 * identifier, `constants` says which constant a name denotes inside a given
 * scope (what `scope.const_get(name)` returns), and `factories` holds the
 * constants that respond to `json_create`.
 */
module TypePaths {
  import opened Wrappers

  /** Identifier of a Ruby constant (a class, a module or any other constant). */
  type ConstId = nat

  /** Ruby's `Object`, the scope every path is resolved from. */
  const ObjectId: ConstId := 0

  const Separator: string := "::"

  datatype Namespace = Namespace(
    constants: map<(ConstId, string), ConstId>,
    factories: set<ConstId>)

  /** The error `const_get` raises: `name` is not a constant of `scope`. */
  datatype LookupError = UninitializedConstant(scope: ConstId, name: string)

  /**
   * A registry of names Ruby accepts as constant names, as far as the walk
   * relies on it: none is empty and none holds ':'.
   */
  predicate WellFormed(ns: Namespace) {
    forall key :: key in ns.constants ==> key.1 != "" && ColonFree(key.1)
  }

  /** `klass.respond_to?(:json_create)` */
  predicate HasFactory(ns: Namespace, klass: ConstId) {
    klass in ns.factories
  }

  /** `scope.const_get(name)` */
  function ConstGet(ns: Namespace, scope: ConstId, name: string): (r: Result<ConstId, LookupError>)
    ensures r.Success? <==> (scope, name) in ns.constants
    ensures r.Success? ==> r.value == ns.constants[(scope, name)]
    ensures r.Failure? ==> r.error == UninitializedConstant(scope, name)
  {
    if (scope, name) in ns.constants then Success(ns.constants[(scope, name)])
    else Failure(UninitializedConstant(scope, name))
  }

  // ---------------------------------------------------------------------------
  // Ruby's String#split with the literal pattern "::"
  // ---------------------------------------------------------------------------

  predicate StartsWithSeparator(s: string) {
    |s| >= 2 && s[0] == ':' && s[1] == ':'
  }

  predicate ContainsSeparator(s: string) {
    exists i :: 0 <= i < |s| - 1 && s[i] == ':' && s[i + 1] == ':'
  }

  /**
   * Every field between leftmost non-overlapping occurrences of "::",
   * trailing empty fields included; the first field is a prefix of `s`.
   */
  function Fields(s: string): (r: seq<string>)
    ensures |r| >= 1
    ensures r[0] <= s
    ensures |r| == 1 ==> r[0] == s
  {
    if |s| < 2 then [s]
    else if StartsWithSeparator(s) then [""] + Fields(s[2..])
    else
      var rest := Fields(s[1..]);
      [[s[0]] + rest[0]] + rest[1..]
  }

  /** Ruby's split drops the empty fields at the end of the result. */
  function DropTrailingEmpty(fields: seq<string>): (r: seq<string>)
    ensures |r| <= |fields| && r == fields[..|r|]
    ensures forall i :: |r| <= i < |fields| ==> fields[i] == ""
    ensures r != [] ==> r[|r| - 1] != ""
  {
    if fields == [] then []
    else if fields[|fields| - 1] == "" then DropTrailingEmpty(fields[..|fields| - 1])
    else fields
  }

  /**
   * `s.split('::')`: the fields of `s` with the empty ones at the end
   * dropped, none of them holding "::".
   */
  function Split(s: string): (r: seq<string>)
    ensures |r| <= |Fields(s)| && r == Fields(s)[..|r|]
    ensures forall i :: |r| <= i < |Fields(s)| ==> Fields(s)[i] == ""
    ensures r != [] ==> r[|r| - 1] != ""
    ensures forall i :: 0 <= i < |r| ==> !ContainsSeparator(r[i])
  {
    FieldsHaveNoSeparator(s);
    DropTrailingEmpty(Fields(s))
  }

  /** The inverse of `Fields`: the fields joined back with "::". */
  function Join(fields: seq<string>): string {
    if fields == [] then ""
    else if |fields| == 1 then fields[0]
    else fields[0] + Separator + Join(fields[1..])
  }

  /** Joining the fields of a string gives the string back. */
  lemma {:induction false} JoinFields(s: string)
    ensures Join(Fields(s)) == s
  {
    if |s| < 2 {
    } else if StartsWithSeparator(s) {
      JoinFields(s[2..]);
      assert s == Separator + s[2..];
    } else {
      var rest := Fields(s[1..]);
      JoinFields(s[1..]);
      assert s == [s[0]] + s[1..];
      if |rest| == 1 {
      } else {
        assert Join(rest) == rest[0] + Separator + Join(rest[1..]);
        var r := Fields(s);
        assert r[1..] == rest[1..];
      }
    }
  }

  /** No field produced by the split contains the separator. */
  lemma {:induction false} FieldsHaveNoSeparator(s: string)
    ensures forall i :: 0 <= i < |Fields(s)| ==> !ContainsSeparator(Fields(s)[i])
  {
    if |s| < 2 {
    } else if StartsWithSeparator(s) {
      FieldsHaveNoSeparator(s[2..]);
      var r := Fields(s);
      forall i | 0 <= i < |r| ensures !ContainsSeparator(r[i]) {
        if i > 0 { assert r[i] == Fields(s[2..])[i - 1]; }
      }
    } else {
      var rest := Fields(s[1..]);
      FieldsHaveNoSeparator(s[1..]);
      var r := Fields(s);
      assert rest[0] != [] ==> rest[0][0] == s[1];
      PrependNoSeparator(s[0], rest[0]);
      forall i | 0 <= i < |r| ensures !ContainsSeparator(r[i]) {
        if i > 0 { assert r[i] == rest[i]; }
      }
    }
  }

  predicate EndsWithColon(f: string) {
    f != "" && f[|f| - 1] == ':'
  }

  /**
   * The separators are matched leftmost first: no field but the last ends
   * with ':' (in "a:::b" the fields are "a" and ":b", not "a:" and "b").
   */
  lemma {:induction false} FieldsLeftmost(s: string)
    ensures forall i :: 0 <= i < |Fields(s)| - 1 ==> !EndsWithColon(Fields(s)[i])
  {
    if |s| < 2 {
    } else if StartsWithSeparator(s) {
      var tail := Fields(s[2..]);
      FieldsLeftmost(s[2..]);
      var r := Fields(s);
      assert r == [""] + tail;
      forall i | 0 < i < |r| - 1 ensures !EndsWithColon(r[i]) {
        assert r[i] == tail[i - 1];
      }
    } else {
      var rest := Fields(s[1..]);
      FieldsLeftmost(s[1..]);
      var r := Fields(s);
      var head := [s[0]] + rest[0];
      assert r == [head] + rest[1..];
      if |rest| > 1 {
        HeadNotEndingInColon(s, rest);
      }
      forall i | 0 < i < |r| - 1 ensures !EndsWithColon(r[i]) {
        assert r[i] == rest[i];
      }
    }
  }

  /** The first field of `s`, built from `s[0]` and the first field of `s[1..]`, does not end with ':'. */
  lemma HeadNotEndingInColon(s: string, rest: seq<string>)
    requires |s| >= 2 && !StartsWithSeparator(s)
    requires rest == Fields(s[1..]) && |rest| > 1
    requires !EndsWithColon(rest[0])
    ensures !EndsWithColon([s[0]] + rest[0])
  {
    if rest[0] == "" {
      assert StartsWithSeparator(s[1..]);
    } else {
      var head := [s[0]] + rest[0];
      assert head[|head| - 1] == rest[0][|rest[0]| - 1];
    }
  }

  /** One character in front of a string without "::" adds none, unless it starts one. */
  lemma PrependNoSeparator(c: char, t: string)
    requires !ContainsSeparator(t)
    requires !(c == ':' && t != [] && t[0] == ':')
    ensures !ContainsSeparator([c] + t)
  {
    var head := [c] + t;
    forall j | 0 <= j < |head| - 1 ensures !(head[j] == ':' && head[j + 1] == ':') {
      if j > 0 {
        assert head[j] == t[j - 1] && head[j + 1] == t[j];
      }
    }
  }

  /** A string without ':' in it: a constant name as Ruby writes one. */
  predicate ColonFree(s: string) {
    forall i :: 0 <= i < |s| ==> s[i] != ':'
  }

  /** A string without ':' is a single field. */
  lemma {:induction false} FieldsColonFree(a: string)
    requires ColonFree(a)
    ensures Fields(a) == [a]
  {
    if |a| >= 2 {
      FieldsColonFree(a[1..]);
      assert [a[0]] + a[1..] == a;
    }
  }

  /** A colon-free segment followed by "::" splits off as the first field. */
  lemma {:induction false} FieldsOfSegment(a: string, b: string)
    requires ColonFree(a)
    ensures Fields(a + Separator + b) == [a] + Fields(b)
  {
    var s := a + Separator + b;
    if a == [] {
      assert s == Separator + b && s[2..] == b;
    } else {
      assert s[1..] == a[1..] + Separator + b;
      FieldsOfSegment(a[1..], b);
      assert [a[0]] + a[1..] == a;
    }
  }

  /** Splitting colon-free segments joined with "::" gives the segments back. */
  lemma {:induction false} FieldsJoin(segments: seq<string>)
    requires segments != []
    requires forall i :: 0 <= i < |segments| ==> ColonFree(segments[i])
    ensures Fields(Join(segments)) == segments
  {
    if |segments| == 1 {
      FieldsColonFree(segments[0]);
    } else {
      var rest := segments[1..];
      assert forall i :: 0 <= i < |rest| ==> rest[i] == segments[i + 1];
      FieldsJoin(rest);
      assert Join(segments) == segments[0] + Separator + Join(rest);
      FieldsOfSegment(segments[0], Join(rest));
      assert segments == [segments[0]] + rest;
    }
  }

  /** The same for Ruby's split, when the last segment is not empty. */
  lemma SplitJoin(segments: seq<string>)
    requires segments != [] && segments[|segments| - 1] != ""
    requires forall i :: 0 <= i < |segments| ==> ColonFree(segments[i])
    ensures Split(Join(segments)) == segments
  {
    FieldsJoin(segments);
  }

  // ---------------------------------------------------------------------------
  // The left-to-right fold over the segments
  // ---------------------------------------------------------------------------

  /** Look up each segment in the scope the previous one resolved to. */
  function Resolve(ns: Namespace, scope: ConstId, segments: seq<string>): (r: Result<ConstId, LookupError>)
    ensures r.Failure? ==> r.error.name in segments && (r.error.scope, r.error.name) !in ns.constants
    decreases segments
  {
    if segments == [] then Success(scope)
    else
      match ConstGet(ns, scope, segments[0])
      case Failure(e) => Failure(e)
      case Success(next) => Resolve(ns, next, segments[1..])
  }

  /** `constantize(s)`: fold the segments of `s` from `Object`. */
  method Constantize(ns: Namespace, s: string) returns (r: Result<ConstId, LookupError>)
    ensures r == Resolve(ns, ObjectId, Split(s))
  {
    var segments := Split(s);
    var current := ObjectId;
    var i := 0;
    while i < |segments|
      invariant 0 <= i <= |segments|
      invariant Resolve(ns, ObjectId, segments) == Resolve(ns, current, segments[i..])
    {
      var step := ConstGet(ns, current, segments[i]);
      if step.Failure? {
        return Failure(step.error);
      }
      assert segments[i..][1..] == segments[i + 1..];
      current := step.value;
      i := i + 1;
    }
    return Success(current);
  }

  /**
   * The empty path names the scope itself, and a one-segment path names the
   * constant registered under that name in the scope. With `ResolveAppend`
   * these fix the constant any path reaches.
   */
  lemma ResolveOne(ns: Namespace, scope: ConstId, name: string)
    ensures Resolve(ns, scope, []) == Success(scope)
    ensures Resolve(ns, scope, [name]) ==
      if (scope, name) in ns.constants then Success(ns.constants[(scope, name)])
      else Failure(UninitializedConstant(scope, name))
  {
    assert [name][1..] == [];
  }

  /** Resolving a concatenated path resolves the first part, then the rest from there. */
  lemma {:induction false} ResolveAppend(ns: Namespace, scope: ConstId, first: seq<string>, rest: seq<string>)
    ensures Resolve(ns, scope, first + rest) ==
      match Resolve(ns, scope, first)
      case Failure(e) => Failure(e)
      case Success(mid) => Resolve(ns, mid, rest)
    decreases first
  {
    if first == [] {
      assert first + rest == rest;
    } else {
      assert (first + rest)[0] == first[0];
      assert (first + rest)[1..] == first[1..] + rest;
      match ConstGet(ns, scope, first[0])
      case Failure(e) =>
      case Success(next) => ResolveAppend(ns, next, first[1..], rest);
    }
  }

  /**
   * Resolution fails exactly at the first segment that is not a constant of the
   * scope its prefix resolved to, and reports that scope and segment.
   */
  lemma {:induction false} ResolveFailure(ns: Namespace, scope: ConstId, segments: seq<string>, at: ConstId, name: string)
    ensures Resolve(ns, scope, segments) == Failure(UninitializedConstant(at, name)) <==>
      exists j :: 0 <= j < |segments| && Resolve(ns, scope, segments[..j]) == Success(at) &&
        segments[j] == name && (at, name) !in ns.constants
    decreases segments
  {
    if segments == [] {
    } else {
      var tail := segments[1..];
      match ConstGet(ns, scope, segments[0])
      case Failure(e) =>
        assert Resolve(ns, scope, segments[..0]) == Success(scope);
        forall j | 0 < j < |segments|
          ensures Resolve(ns, scope, segments[..j]).Failure?
        {
          assert segments[..j][0] == segments[0];
        }
      case Success(next) =>
        ResolveFailure(ns, next, tail, at, name);
        forall j | 0 < j <= |segments|
          ensures Resolve(ns, scope, segments[..j]) == Resolve(ns, next, tail[..j - 1])
        {
          assert segments[..j][0] == segments[0];
          assert segments[..j][1..] == tail[..j - 1];
        }
        if exists j :: 0 <= j < |segments| && Resolve(ns, scope, segments[..j]) == Success(at) &&
            segments[j] == name && (at, name) !in ns.constants {
          var j :| 0 <= j < |segments| && Resolve(ns, scope, segments[..j]) == Success(at) &&
            segments[j] == name && (at, name) !in ns.constants;
          assert j > 0;
          assert tail[j - 1] == segments[j];
        }
        if Resolve(ns, scope, segments) == Failure(UninitializedConstant(at, name)) {
          var k :| 0 <= k < |tail| && Resolve(ns, next, tail[..k]) == Success(at) &&
            tail[k] == name && (at, name) !in ns.constants;
          assert segments[k + 1] == name;
        }
    }
  }

  /**
   * Against a well-formed registry, a path with an empty segment (as in
   * "::Node" or "Chef::::Node") never resolves.
   */
  lemma {:induction false} EmptySegmentFails(ns: Namespace, scope: ConstId, segments: seq<string>)
    requires WellFormed(ns)
    requires "" in segments
    ensures Resolve(ns, scope, segments).Failure?
    decreases segments
  {
    if segments[0] == "" {
      assert (scope, "") !in ns.constants;
    } else {
      match ConstGet(ns, scope, segments[0])
      case Failure(_) =>
      case Success(next) =>
        assert "" in segments[1..];
        EmptySegmentFails(ns, next, segments[1..]);
    }
  }

  /** A path that resolves has every prefix resolving as well. */
  lemma {:induction false} ResolvePrefixes(ns: Namespace, scope: ConstId, segments: seq<string>, j: nat)
    requires Resolve(ns, scope, segments).Success?
    requires j <= |segments|
    ensures Resolve(ns, scope, segments[..j]).Success?
  {
    ResolveAppend(ns, scope, segments[..j], segments[j..]);
    assert segments[..j] + segments[j..] == segments;
  }
}
