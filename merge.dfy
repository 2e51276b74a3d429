/** The merge of `--required-services` into `requiredServices` (lines 224-236), as a
    specification on values. The rule is the one the code implements: `is_service`
    is reassigned for every existing entry, so a name is skipped exactly when the
    LAST entry of the list has that `url`. */
module Merge {
  import opened Wrappers
  import opened JsonValue
  import Split

  /** The exceptions the merge can raise on a loaded document of unexpected shape. */
  datatype Error =
    | TypeError            // subscripting or iterating a value that does not allow it
    | KeyError(key: string) // a missing dictionary key
    | AttributeError       // `.append` on a value that is not a list

  /** The record appended for a new name (lines 231-236). */
  function NewDependency(name: string): (d: Json)
    ensures d.JObj? && "url" in d.fields && d.fields["url"] == JStr(name)
  {
    JObj(map["url" := JStr(name), "org" := JStr("myorg"),
             "versionRange" := JStr("[0.0.0,INFINITY)"), "arch" := JStr("$ARCH")])
  }

  /** The new records for some names, in order. */
  function Dependencies(names: seq<string>): (r: seq<Json>)
    ensures |r| == |names|
    ensures forall k :: 0 <= k < |names| ==> r[k] == NewDependency(names[k])
  {
    if names == [] then [] else Dependencies(names[..|names| - 1]) + [NewDependency(names[|names| - 1])]
  }

  /** The exception `service['url']` raises for one existing entry, if any. */
  function EntryError(service: Json): Option<Error>
  {
    if !service.JObj? then Some(TypeError)
    else if "url" !in service.fields then Some(KeyError("url"))
    else None
  }

  /** The exception of the first entry that raises, scanning in order. */
  function EntriesError(services: seq<Json>): (r: Option<Error>)
    ensures r.None? <==> forall k :: 0 <= k < |services| ==> EntryError(services[k]).None?
    ensures r.Some? ==> exists k :: 0 <= k < |services| && EntryError(services[k]) == r &&
                                    forall j :: 0 <= j < k ==> EntryError(services[j]).None?
  {
    if services == [] then None
    else
      var before := EntriesError(services[..|services| - 1]);
      if before.Some? then before else EntryError(services[|services| - 1])
  }

  /** The entries of `BASE_POLICY['requiredServices']` for the merge of a first
      name, or the exception that merge raises: the document must be a dict with
      that key; a falsy value skips the scan and then needs `.append`; a truthy value
      is scanned, so it must be a list of dicts that all have a `url`. */
  function ServicesOf(policy: Json): (r: Result<seq<Json>, Error>)
    ensures r.Ok? <==> policy.JObj? && "requiredServices" in policy.fields &&
                       policy.fields["requiredServices"].JArr? &&
                       EntriesError(policy.fields["requiredServices"].items).None?
    ensures r.Ok? ==> r.value == policy.fields["requiredServices"].items
  {
    if !policy.JObj? then Err(TypeError)
    else if "requiredServices" !in policy.fields then Err(KeyError("requiredServices"))
    else
      var services := policy.fields["requiredServices"];
      if !Truthy(services) then
        (if services.JArr? then Ok([]) else Err(AttributeError))
      else if !services.JArr? then Err(TypeError)
      else if EntriesError(services.items).Some? then Err(EntriesError(services.items).value)
      else Ok(services.items)
  }

  /** An entry is a dict whose `url` equals `name`. */
  predicate HasUrl(service: Json, name: string)
  {
    service.JObj? && "url" in service.fields && EqualsStr(service.fields["url"], name)
  }

  /** What the inner loop leaves in `is_service`: whether the last entry has the
      name as its `url`. */
  predicate LastHasUrl(services: seq<Json>, name: string)
  {
    services != [] && HasUrl(services[|services| - 1], name)
  }

  /** One pass of the outer loop, as written. */
  function Step(services: seq<Json>, name: string): seq<Json>
  {
    if LastHasUrl(services, name) then services else services + [NewDependency(name)]
  }

  /** All passes of the outer loop, one per name in order. */
  function MergeServices(services: seq<Json>, names: seq<string>): seq<Json>
  {
    if names == [] then services
    else Step(MergeServices(services, names[..|names| - 1]), names[|names| - 1])
  }

  /** Merging one more name is one more pass over the result so far. */
  lemma MergeServicesSnoc(services: seq<Json>, names: seq<string>, i: nat)
    requires i < |names|
    ensures MergeServices(services, names[..i + 1]) == Step(MergeServices(services, names[..i]), names[i])
  {
    assert names[..i + 1][..i] == names[..i];
  }

  /** The document with its `requiredServices` replaced. */
  function WithServices(policy: Json, services: seq<Json>): (r: Json)
    requires policy.JObj?
    ensures r.JObj? && "requiredServices" in r.fields && r.fields["requiredServices"] == JArr(services)
    ensures r.fields.Keys == policy.fields.Keys + {"requiredServices"}
    ensures forall k :: k in policy.fields && k != "requiredServices" ==> r.fields[k] == policy.fields[k]
  {
    JObj(policy.fields["requiredServices" := JArr(services)])
  }

  /** The effect of lines 224-236 on the document: nothing without the argument;
      otherwise the merge of the comma-separated names, or the exception raised. */
  function MergePolicy(policy: Json, requiredServices: Option<string>): Result<Json, Error>
  {
    match requiredServices
    case None => Ok(policy)
    case Some(arg) =>
      match ServicesOf(policy)
      case Err(e) => Err(e)
      case Ok(services) => Ok(WithServices(policy, MergeServices(services, Split.SplitOn(arg, ','))))
  }

  // ---------------------------------------------------------------------------
  // Properties of the merge as written

  /** The skip rule: a pass leaves the list unchanged exactly when the last entry
      has the name, and otherwise appends the new record. */
  lemma StepSkipsIffLastMatches(services: seq<Json>, name: string)
    ensures Step(services, name) == services <==> LastHasUrl(services, name)
    ensures !LastHasUrl(services, name) ==> Step(services, name) == services + [NewDependency(name)]
  {
    if !LastHasUrl(services, name) {
      assert |Step(services, name)| == |services| + 1;
    }
  }

  /** After a pass the last entry carries the name, so the same name right after is
      skipped: consecutive duplicates collapse to one record. */
  lemma StepTwice(services: seq<Json>, name: string)
    ensures LastHasUrl(Step(services, name), name)
    ensures Step(Step(services, name), name) == Step(services, name)
  {
  }

  /** Merging `a + b` is merging `a` and then `b` into the result. */
  lemma {:induction false} MergeServicesAppend(services: seq<Json>, a: seq<string>, b: seq<string>)
    ensures MergeServices(services, a + b) == MergeServices(MergeServices(services, a), b)
  {
    if b == [] {
      assert a + b == a;
    } else {
      var ab := a + b;
      assert ab[..|ab| - 1] == a + b[..|b| - 1];
      assert ab[|ab| - 1] == b[|b| - 1];
      MergeServicesAppend(services, a, b[..|b| - 1]);
    }
  }

  /** A name given twice in a row, anywhere in the argument, has the same effect as
      given once. */
  lemma {:induction false} ConsecutiveDuplicatesCollapse(services: seq<Json>, before: seq<string>, name: string, after: seq<string>)
    ensures MergeServices(services, before + [name, name] + after) == MergeServices(services, before + [name] + after)
  {
    var ns := before + [name, name];
    assert ns[..|ns| - 1] == before + [name];
    assert (before + [name])[..|before| + 1 - 1] == before;
    StepTwice(MergeServices(services, before), name);
    assert MergeServices(services, ns) == MergeServices(services, before + [name]);
    MergeServicesAppend(services, ns, after);
    MergeServicesAppend(services, before + [name], after);
  }

  /** Subsequence, in order. */
  predicate IsSubsequence(sub: seq<string>, s: seq<string>)
    decreases |s|
  {
    if sub == [] then true
    else if s == [] then false
    else if sub[|sub| - 1] == s[|s| - 1] then IsSubsequence(sub[..|sub| - 1], s[..|s| - 1])
    else IsSubsequence(sub, s[..|s| - 1])
  }

  /** A subsequence stays one when the sequence grows at the end. */
  lemma {:induction false} SubsequenceExtend(sub: seq<string>, s: seq<string>, x: string)
    requires IsSubsequence(sub, s)
    ensures IsSubsequence(sub, s + [x])
    decreases |s|, 1
  {
    var t := s + [x];
    assert t[..|t| - 1] == s;
    if sub != [] && sub[|sub| - 1] == x {
      SubsequenceDropLast(sub, s);
    }
  }

  /** Dropping the last element of a subsequence keeps it a subsequence. */
  lemma {:induction false} SubsequenceDropLast(sub: seq<string>, s: seq<string>)
    requires sub != [] && IsSubsequence(sub, s)
    ensures IsSubsequence(sub[..|sub| - 1], s)
    decreases |s|, 0
  {
    var s' := s[..|s| - 1];
    assert s' + [s[|s| - 1]] == s;
    if sub[|sub| - 1] == s[|s| - 1] {
      SubsequenceExtend(sub[..|sub| - 1], s', s[|s| - 1]);
    } else {
      SubsequenceDropLast(sub, s');
      SubsequenceExtend(sub[..|sub| - 1], s', s[|s| - 1]);
    }
  }

  /** The merge only appends: the old list is a prefix of the result, which grows by
      at most one record per name. */
  lemma {:induction false} MergeAppendOnly(services: seq<Json>, names: seq<string>)
    ensures |services| <= |MergeServices(services, names)| <= |services| + |names|
    ensures MergeServices(services, names)[..|services|] == services
  {
    if names != [] {
      MergeAppendOnly(services, names[..|names| - 1]);
    }
  }

  /** The appended records are the new records of some of the names, in the order
      the names were given. */
  lemma {:induction false} MergeAppendsInOrder(services: seq<Json>, names: seq<string>)
    ensures exists added :: IsSubsequence(added, names) &&
                            MergeServices(services, names) == services + Dependencies(added)
  {
    if names == [] {
      assert IsSubsequence([], names) && MergeServices(services, names) == services + Dependencies([]);
    } else {
      var init, x := names[..|names| - 1], names[|names| - 1];
      assert init + [x] == names;
      MergeAppendsInOrder(services, init);
      var added :| IsSubsequence(added, init) && MergeServices(services, init) == services + Dependencies(added);
      var prev := MergeServices(services, init);
      if LastHasUrl(prev, x) {
        SubsequenceExtend(added, init, x);
        assert IsSubsequence(added, names) && MergeServices(services, names) == services + Dependencies(added);
      } else {
        var added' := added + [x];
        assert added'[..|added'| - 1] == added;
        assert IsSubsequence(added', names);
        assert Dependencies(added') == Dependencies(added) + [NewDependency(x)];
        assert MergeServices(services, names) == services + Dependencies(added');
      }
    }
  }

  /** Whatever was skipped, every requested name has a record with that `url` in
      the result. */
  lemma {:induction false} MergeCoversNames(services: seq<Json>, names: seq<string>)
    ensures forall k :: 0 <= k < |names| ==>
      exists j :: 0 <= j < |MergeServices(services, names)| && HasUrl(MergeServices(services, names)[j], names[k])
  {
    if names != [] {
      var init, x := names[..|names| - 1], names[|names| - 1];
      var prev := MergeServices(services, init);
      var r := MergeServices(services, names);
      MergeCoversNames(services, init);
      MergeAppendOnly(prev, [x]);
      assert r == Step(prev, x);
      forall k | 0 <= k < |names|
        ensures exists j :: 0 <= j < |r| && HasUrl(r[j], names[k])
      {
        if k < |names| - 1 {
          assert names[k] == init[k];
          var j :| 0 <= j < |prev| && HasUrl(prev[j], init[k]);
          assert r[..|prev|] == prev;
          assert r[j] == prev[j];
        } else {
          StepTwice(prev, x);
          assert HasUrl(r[|r| - 1], names[k]);
        }
      }
      assert r == MergeServices(services, names);
    }
  }

  /** Records appended by the merge have a `url`, so a list the merge could scan stays
      one it can scan. */
  lemma {:induction false} MergeKeepsEntriesScannable(services: seq<Json>, names: seq<string>)
    requires EntriesError(services).None?
    ensures EntriesError(MergeServices(services, names)).None?
  {
    if names != [] {
      var prev := MergeServices(services, names[..|names| - 1]);
      MergeKeepsEntriesScannable(services, names[..|names| - 1]);
      var r := Step(prev, names[|names| - 1]);
      if r != prev {
        assert r[..|r| - 1] == prev;
      }
    }
  }

  /** Without the argument the document is left exactly as it was, whatever its shape. */
  lemma MergePolicyWithoutArgument(policy: Json)
    ensures MergePolicy(policy, None) == Ok(policy)
  {
  }

  /** With the argument, the merge succeeds exactly when the loaded document's
      `requiredServices` is a list of dicts that all have a `url`; it then changes no
      other field, keeps the old entries as a prefix and adds at most one record more
      than the argument has commas. */
  lemma MergePolicyWithArgument(policy: Json, arg: string)
    ensures MergePolicy(policy, Some(arg)).Ok? <==> ServicesOf(policy).Ok?
    ensures MergePolicy(policy, Some(arg)).Err? ==> MergePolicy(policy, Some(arg)).error == ServicesOf(policy).error
    ensures MergePolicy(policy, Some(arg)).Ok? ==>
      var before := ServicesOf(policy).value;
      var r := MergePolicy(policy, Some(arg)).value;
      r.JObj? && r.fields.Keys == policy.fields.Keys &&
      (forall key :: key in policy.fields && key != "requiredServices" ==> r.fields[key] == policy.fields[key]) &&
      r.fields["requiredServices"].JArr? &&
      |before| <= |r.fields["requiredServices"].items| <= |before| + Split.Occurrences(arg, ',') + 1 &&
      r.fields["requiredServices"].items[..|before|] == before
  {
    if ServicesOf(policy).Ok? {
      Split.SplitCount(arg, ',');
      MergeAppendOnly(ServicesOf(policy).value, Split.SplitOn(arg, ','));
    }
  }

  // ---------------------------------------------------------------------------
  // The rule as written against a whole-list membership test

  /** Merging `a,b` into an empty list twice appends both names again: the merge as
      written is not idempotent. */
  lemma MergeNotIdempotent()
    ensures MergeServices([], ["a", "b"]) == Dependencies(["a", "b"])
    ensures MergeServices(Dependencies(["a", "b"]), ["a", "b"]) == Dependencies(["a", "b", "a", "b"])
    ensures MergeServices(MergeServices([], ["a", "b"]), ["a", "b"]) != MergeServices([], ["a", "b"])
  {
    var ab := Dependencies(["a", "b"]);
    assert ["a", "b"][..1] == ["a"];
    assert ["a", "b", "a"][..2] == ["a", "b"];
    assert ["a", "b", "a", "b"][..3] == ["a", "b", "a"];
    assert MergeServices(ab, ["a"]) == ab + [NewDependency("a")];
    assert MergeServices(ab, ["a", "b"]) == ab + [NewDependency("a"), NewDependency("b")];
    assert |MergeServices(ab, ["a", "b"])| == 4;
  }

  /** A name repeated after another name is appended a second time. */
  lemma NonAdjacentDuplicateReappended()
    ensures MergeServices([], ["a", "b", "a"]) == Dependencies(["a", "b", "a"])
  {
    assert ["a", "b", "a"][..2] == ["a", "b"];
    assert ["a", "b"][..1] == ["a"];
  }

  /** Some entry of the list has the name as its `url`. */
  predicate ContainsUrl(services: seq<Json>, name: string)
  {
    exists k :: 0 <= k < |services| && HasUrl(services[k], name)
  }

  /** One pass with a whole-list membership test. */
  function StepIntended(services: seq<Json>, name: string): seq<Json>
  {
    if ContainsUrl(services, name) then services else services + [NewDependency(name)]
  }

  /** The merge with a whole-list membership test, one pass per name in order. */
  function MergeIntended(services: seq<Json>, names: seq<string>): seq<Json>
  {
    if names == [] then services
    else StepIntended(MergeIntended(services, names[..|names| - 1]), names[|names| - 1])
  }

  /** The two rules part ways as soon as the matching entry is not the last one. */
  lemma AsWrittenDiffersFromMembership()
    ensures MergeServices(Dependencies(["a", "b"]), ["a"]) == Dependencies(["a", "b", "a"])
    ensures MergeIntended(Dependencies(["a", "b"]), ["a"]) == Dependencies(["a", "b"])
  {
    var ab := Dependencies(["a", "b"]);
    assert ["a", "b", "a"][..2] == ["a", "b"];
    assert HasUrl(ab[0], "a");
  }

  /** The membership rule agrees with the rule as written on a pass where neither
      finds the name or where the name is on the last entry. */
  lemma StepAgreement(services: seq<Json>, name: string)
    ensures LastHasUrl(services, name) ==> StepIntended(services, name) == Step(services, name)
    ensures !ContainsUrl(services, name) ==> StepIntended(services, name) == Step(services, name)
  {
    if LastHasUrl(services, name) {
      assert HasUrl(services[|services| - 1], name);
    }
  }

  /** Every requested name has a record after the membership merge. */
  lemma {:induction false} MergeIntendedCovers(services: seq<Json>, names: seq<string>)
    ensures forall k :: 0 <= k < |names| ==> ContainsUrl(MergeIntended(services, names), names[k])
  {
    if names != [] {
      var init, x := names[..|names| - 1], names[|names| - 1];
      var prev := MergeIntended(services, init);
      var r := MergeIntended(services, names);
      MergeIntendedCovers(services, init);
      assert r[..|prev|] == prev;
      forall k | 0 <= k < |names|
        ensures ContainsUrl(r, names[k])
      {
        if k < |names| - 1 {
          assert names[k] == init[k];
          var j :| 0 <= j < |prev| && HasUrl(prev[j], init[k]);
          assert r[j] == prev[j];
        } else if !ContainsUrl(prev, x) {
          assert HasUrl(r[|r| - 1], names[k]);
        }
      }
    }
  }

  /** A second membership merge of the same names changes nothing: idempotence. */
  lemma {:induction false} MergeIntendedIdempotent(services: seq<Json>, names: seq<string>)
    ensures MergeIntended(MergeIntended(services, names), names) == MergeIntended(services, names)
  {
    MergeIntendedCovers(services, names);
    MergeIntendedSkipsPresent(MergeIntended(services, names), names);
  }

  /** Names that all have a record already are all skipped. */
  lemma {:induction false} MergeIntendedSkipsPresent(services: seq<Json>, names: seq<string>)
    requires forall k :: 0 <= k < |names| ==> ContainsUrl(services, names[k])
    ensures MergeIntended(services, names) == services
  {
    if names != [] {
      var init := names[..|names| - 1];
      assert forall k :: 0 <= k < |init| ==> init[k] == names[k];
      MergeIntendedSkipsPresent(services, init);
      assert ContainsUrl(services, names[|names| - 1]);
    }
  }

  /** Records appended by the membership merge have a `url` too. */
  lemma {:induction false} MergeIntendedKeepsEntriesScannable(services: seq<Json>, names: seq<string>)
    requires EntriesError(services).None?
    ensures EntriesError(MergeIntended(services, names)).None?
  {
    if names != [] {
      var prev := MergeIntended(services, names[..|names| - 1]);
      MergeIntendedKeepsEntriesScannable(services, names[..|names| - 1]);
      var r := StepIntended(prev, names[|names| - 1]);
      if r != prev {
        assert r[..|r| - 1] == prev;
      }
    }
  }

  /** The effect on the document of the merge with a whole-list membership test. */
  function MergePolicyIntended(policy: Json, requiredServices: Option<string>): Result<Json, Error>
  {
    match requiredServices
    case None => Ok(policy)
    case Some(arg) =>
      match ServicesOf(policy)
      case Err(e) => Err(e)
      case Ok(services) => Ok(WithServices(policy, MergeIntended(services, Split.SplitOn(arg, ','))))
  }

  /** Running the corrected merge a second time with the same argument on the
      document it produced leaves that document as it is. */
  lemma MergePolicyIntendedIdempotent(policy: Json, requiredServices: Option<string>)
    requires MergePolicyIntended(policy, requiredServices).Ok?
    ensures MergePolicyIntended(MergePolicyIntended(policy, requiredServices).value, requiredServices) ==
            MergePolicyIntended(policy, requiredServices)
  {
    if requiredServices.Some? {
      var services := ServicesOf(policy).value;
      var names := Split.SplitOn(requiredServices.value, ',');
      var merged := MergeIntended(services, names);
      MergeIntendedKeepsEntriesScannable(services, names);
      var once := WithServices(policy, merged);
      assert ServicesOf(once) == Ok(merged);
      MergeIntendedIdempotent(services, names);
      WithServicesTwice(policy, merged, merged);
    }
  }

  /** No two entries share a `url` string. */
  ghost predicate UniqueUrls(services: seq<Json>)
  {
    forall i, j, name :: 0 <= i < j < |services| && HasUrl(services[i], name) ==> !HasUrl(services[j], name)
  }

  /** The membership merge keeps at most one entry per `url`. */
  lemma {:induction false} MergeIntendedKeepsUnique(services: seq<Json>, names: seq<string>)
    requires UniqueUrls(services)
    ensures UniqueUrls(MergeIntended(services, names))
  {
    if names != [] {
      var init, x := names[..|names| - 1], names[|names| - 1];
      var prev := MergeIntended(services, init);
      MergeIntendedKeepsUnique(services, init);
      if !ContainsUrl(prev, x) {
        var r := prev + [NewDependency(x)];
        forall i, j, name | 0 <= i < j < |r| && HasUrl(r[i], name)
          ensures !HasUrl(r[j], name)
        {
          if j == |r| - 1 {
            assert r[i] == prev[i];
          }
        }
      }
    }
  }

  /** Once a prefix of the entries raises, the scan of the whole list raises the same. */
  lemma {:induction false} EntriesErrorOfPrefix(services: seq<Json>, n: nat)
    requires n <= |services|
    requires EntriesError(services[..n]).Some?
    ensures EntriesError(services) == EntriesError(services[..n])
  {
    if n < |services| {
      var init := services[..|services| - 1];
      assert init[..n] == services[..n];
      EntriesErrorOfPrefix(init, n);
    } else {
      assert services[..n] == services;
    }
  }

  /** Replacing `requiredServices` by the list it already holds changes nothing. */
  lemma WithServicesUnchanged(policy: Json, services: seq<Json>)
    requires policy.JObj? && "requiredServices" in policy.fields
    requires policy.fields["requiredServices"] == JArr(services)
    ensures WithServices(policy, services) == policy
  {
    assert WithServices(policy, services).fields == policy.fields;
  }

  /** A second replacement of `requiredServices` overrides the first. */
  lemma WithServicesTwice(policy: Json, first: seq<Json>, second: seq<Json>)
    requires policy.JObj?
    ensures WithServices(WithServices(policy, first), second) == WithServices(policy, second)
  {
    assert WithServices(WithServices(policy, first), second).fields == WithServices(policy, second).fields;
  }

  /** The outcomes of the merge with an argument, case by case along the checks the
      first pass makes. */
  lemma MergePolicyCases(policy: Json, arg: string)
    ensures !policy.JObj? ==> MergePolicy(policy, Some(arg)) == Err(TypeError)
    ensures policy.JObj? && "requiredServices" !in policy.fields ==>
              MergePolicy(policy, Some(arg)) == Err(KeyError("requiredServices"))
    ensures policy.JObj? && "requiredServices" in policy.fields ==>
      var services := policy.fields["requiredServices"];
      (Truthy(services) && !services.JArr? ==> MergePolicy(policy, Some(arg)) == Err(TypeError)) &&
      (Truthy(services) && services.JArr? && EntriesError(services.items).Some? ==>
         MergePolicy(policy, Some(arg)) == Err(EntriesError(services.items).value)) &&
      (!Truthy(services) && !services.JArr? ==> MergePolicy(policy, Some(arg)) == Err(AttributeError))
    ensures ServicesOf(policy).Ok? ==>
      MergePolicy(policy, Some(arg)) == Ok(WithServices(policy, MergeServices(ServicesOf(policy).value, Split.SplitOn(arg, ','))))
  {
  }
}
