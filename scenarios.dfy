/**
 * Worked decodes against a small registry: `Chef::Node` has `json_create`,
 * `Chef::Role` only a constructor, and nothing else is defined.
 */
module Scenarios {
  import opened Wrappers
  import opened TypePaths
  import opened JsonValues
  import opened Reconstruction
  import Options

  const ChefId: ConstId := 1
  const NodeId: ConstId := 2
  const RoleId: ConstId := 3

  const Registry: Namespace := Namespace(
    map[(ObjectId, "Chef") := ChefId, (ChefId, "Node") := NodeId, (ChefId, "Role") := RoleId],
    {NodeId})

  /** The registry names only constants Ruby would accept. */
  lemma RegistryWellFormed()
    ensures WellFormed(Registry)
  {
    forall key | key in Registry.constants ensures key.1 != "" && ColonFree(key.1) {
      assert key.1 in {"Chef", "Node", "Role"};
    }
  }

  /** The entries of `{"json_class": <path>, "name": "web1"}`. */
  function Tagged(path: string): seq<Member> {
    [Member(JsonClass, Str(path)), Member("name", Str("web1"))]
  }

  lemma ResolveChefPath(name: string)
    requires name == "Node" || name == "Role"
    ensures Resolve(Registry, ObjectId, Split("Chef::" + name)) ==
      Success(if name == "Node" then NodeId else RoleId)
  {
    var segments := ["Chef", name];
    assert ColonFree("Chef") && ColonFree(name);
    SplitJoin(segments);
    assert Join(segments[1..]) == name;
    assert Join(segments) == "Chef::" + name;
    var k := if name == "Node" then NodeId else RoleId;
    assert Registry.constants[(ChefId, name)] == k;
    assert Resolve(Registry, k, segments[1..][1..]) == Success(k);
  }

  /** The facts about a tagged Hash that the rework lemmas need. */
  lemma TaggedShape(path: string)
    ensures DistinctKeys(Tagged(path)) && HasKey(Tagged(path), JsonClass)
    ensures Get(Tagged(path), JsonClass) == Str(path)
    ensures forall i :: 0 <= i < 2 ==> Rework(Registry, Tagged(path)[i].value) == Success(Tagged(path)[i].value)
  {
    var members := Tagged(path);
    assert members[0].key == JsonClass;
    assert JsonClass != "name";
  }

  /** A Hash whose every value comes back unchanged is handed over as it is. */
  lemma PayloadIsHash(path: string)
    ensures Rework(Registry, Object(Tagged(path))).Success? ==>
      && Rework(Registry, Object(Tagged(path))).value.Constructed?
      && Rework(Registry, Object(Tagged(path))).value.payload == Tagged(path)
  {
    var members := Tagged(path);
    TaggedShape(path);
    ReworkTaggedValuesSucceed(Registry, members);
    var r := Rework(Registry, Object(members));
    if r.Success? {
      var p := r.value.payload;
      assert |p| == 2;
      assert p[0].key == Keys(p)[0] == Keys(members)[0];
      assert p[1].key == Keys(p)[1] == Keys(members)[1];
      assert p == members;
    }
  }

  /** A type with `json_create` gets the whole Hash, tag included, through its factory. */
  lemma DecodeWithFactory()
    ensures Rework(Registry, Object(Tagged("Chef::Node"))) ==
      Success(Constructed(NodeId, true, Tagged("Chef::Node")))
  {
    var members := Tagged("Chef::Node");
    TaggedShape("Chef::Node");
    ResolveChefPath("Node");
    assert "Chef::" + "Node" == "Chef::Node";
    ReworkTaggedValuesSucceed(Registry, members);
    PayloadIsHash("Chef::Node");
  }

  /** A type without `json_create` gets the same Hash through `new`. */
  lemma DecodeWithConstructor()
    ensures Rework(Registry, Object(Tagged("Chef::Role"))) ==
      Success(Constructed(RoleId, false, Tagged("Chef::Role")))
  {
    var members := Tagged("Chef::Role");
    TaggedShape("Chef::Role");
    ResolveChefPath("Role");
    assert "Chef::" + "Role" == "Chef::Role";
    ReworkTaggedValuesSucceed(Registry, members);
    PayloadIsHash("Chef::Role");
  }

  lemma ResolveMissingPath()
    ensures Resolve(Registry, ObjectId, Split("Missing::Nope")) ==
      Failure(UninitializedConstant(ObjectId, "Missing"))
  {
    var segments := ["Missing", "Nope"];
    assert Split("Missing::Nope") == segments by {
      assert ColonFree(segments[0]) && ColonFree(segments[1]);
      SplitJoin(segments);
      assert Join(segments[1..]) == "Nope";
      assert Join(segments) == "Missing::Nope";
    }
    assert ConstGet(Registry, ObjectId, "Missing") == Failure(UninitializedConstant(ObjectId, "Missing"));
  }

  /** An unknown first segment fails the whole decode with a NameError for it. */
  lemma DecodeUnknownType()
    ensures Rework(Registry, Object(Tagged("Missing::Nope"))) ==
      Failure(NameError(UninitializedConstant(ObjectId, "Missing")))
  {
    TaggedShape("Missing::Nope");
    ResolveMissingPath();
    ReworkTaggedValuesSucceed(Registry, Tagged("Missing::Nope"));
  }

  /** A path with a leading "::" has an empty first segment and never resolves. */
  lemma LeadingSeparatorFails()
    ensures Resolve(Registry, ObjectId, Split("::Chef")).Failure?
  {
    var segments := ["", "Chef"];
    assert Split("::Chef") == segments by {
      assert "::Chef"[2..] == "Chef";
      FieldsColonFree("Chef");
    }
    RegistryWellFormed();
    EmptySegmentFails(Registry, ObjectId, segments);
  }

  /**
   * A frozen option Hash without `:max_nesting` makes the json-gem backend
   * raise: its clone is frozen too, so the default cannot be stored.
   */
  method FrozenOptionsRaise() returns (r: Result<Options.OptionHash, Options.HashError>)
    ensures r == Failure(Options.FrozenError)
  {
    var opts := new Options.OptionHash(map[Options.Pretty := Options.Flag(true)]);
    opts.Freeze();
    r := Options.AddMaxNesting(opts);
  }
}
