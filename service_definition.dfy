/** The script `update_service_deployment.py` as a whole: the module globals
    `BASE_POLICY` and `IS_BASE`, their initialisation and the merge that `main()`
    applies to them before the document is written. */
module ServiceDefinition {
  import opened Wrappers
  import opened JsonValue
  import Split
  import Template
  import opened Load
  import opened Merge

  /** The script's global state. */
  class Script {
    var policy: Json   // BASE_POLICY
    var isBase: bool   // IS_BASE

    /** Module initialisation (lines 15-201): the template, replaced by the contents
        of the definition file when that is a regular file that opens and parses. */
    constructor Init(file: FileState)
      ensures Loaded(policy, isBase) == LoadOrDefault(file)
    {
      policy := Template.BasePolicy;
      isBase := true;
      if file.File? {
        match file.parsed
        case Some(doc) =>
          policy := doc;
          isBase := false;
        case None =>
      }
    }

    /** The merge of `--required-services` in `main()` (lines 224-236): one pass per
        comma-separated name, in order. Either it finishes and the document is the
        merged one, or it raises on the first pass, before anything is appended, and
        the document is untouched. */
    method MergeRequiredServices(requiredServices: Option<string>) returns (raised: Option<Error>)
      modifies this`policy
      ensures MergePolicy(old(policy), requiredServices).Ok? ==>
                raised == None && policy == MergePolicy(old(policy), requiredServices).value
      ensures MergePolicy(old(policy), requiredServices).Err? ==>
                raised == Some(MergePolicy(old(policy), requiredServices).error) && policy == old(policy)
    {
      if requiredServices.None? {
        return None;
      }
      var names := Split.SplitOn(requiredServices.value, ',');
      ghost var start := policy;
      ghost var initial := if ServicesOf(start).Ok? then ServicesOf(start).value else [];
      ghost var merged := initial;
      raised := None;
      var i := 0;
      while i < |names|
        invariant 0 <= i <= |names|
        invariant raised == None
        invariant merged == MergeServices(initial, names[..i])
        invariant i == 0 ==> policy == start && merged == initial
        invariant i > 0 ==> ServicesOf(start) == Ok(initial) && start.JObj? &&
                            policy == WithServices(start, merged) && EntriesError(merged).None?
      {
        if i > 0 {
          ServicesOfMerged(start, merged);
        }
        raised := AddService(names[i]);
        if raised.Some? {
          return;
        }
        if i == 0 {
          WithServicesUnchanged(start, initial);
        } else {
          WithServicesTwice(start, merged, Step(merged, names[i]));
        }
        MergeServicesSnoc(initial, names, i);
        StepKeepsEntriesScannable(merged, names[i]);
        merged := Step(merged, names[i]);
        i := i + 1;
      }
      assert names[..i] == names;
    }

    /** One pass of the outer loop (lines 226-236) for the name `newService`: the
        lookup of `requiredServices`, the inner loop over its entries and the append
        when `is_service` ended false. The pass raises exactly what the merge of a
        first name into the current document raises. */
    method AddService(newService: string) returns (raised: Option<Error>)
      modifies this`policy
      ensures ServicesOf(old(policy)).Err? ==> raised == Some(ServicesOf(old(policy)).error) && policy == old(policy)
      ensures ServicesOf(old(policy)).Ok? ==>
                raised == None && policy == WithServices(old(policy), Step(ServicesOf(old(policy)).value, newService))
    {
      var isService := false;
      if !policy.JObj? {
        return Some(TypeError);
      }
      if "requiredServices" !in policy.fields {
        return Some(KeyError("requiredServices"));
      }
      var services := policy.fields["requiredServices"];
      if Truthy(services) {
        if !services.JArr? {
          return Some(TypeError);
        }
        var scanError;
        isService, scanError := ScanForUrl(services.items, newService);
        if scanError.Some? {
          return scanError;
        }
      }
      if !isService {
        if !services.JArr? {
          return Some(AttributeError);
        }
        policy := WithServices(policy, services.items + [NewDependency(newService)]);
      }
      if isService {
        WithServicesUnchanged(old(policy), services.items);
      }
      return None;
    }
  }

  /** The inner loop of the merge (lines 228-229): `is_service` is overwritten for
      every entry, so it ends as the comparison of the LAST entry's `url` with the
      name; `service['url']` raises on the first entry that is not a dict with a
      `url`. */
  method ScanForUrl(services: seq<Json>, newService: string) returns (isService: bool, raised: Option<Error>)
    ensures raised == EntriesError(services)
    ensures raised.None? ==> isService == LastHasUrl(services, newService)
  {
    isService := false;
    var j := 0;
    while j < |services|
      invariant 0 <= j <= |services|
      invariant EntriesError(services[..j]).None?
      invariant isService == LastHasUrl(services[..j], newService)
    {
      var service := services[j];
      assert services[..j + 1][..j] == services[..j];
      if !service.JObj? {
        EntriesErrorOfPrefix(services, j + 1);
        return isService, Some(TypeError);
      }
      if "url" !in service.fields {
        EntriesErrorOfPrefix(services, j + 1);
        return isService, Some(KeyError("url"));
      }
      isService := EqualsStr(service.fields["url"], newService);
      j := j + 1;
    }
    assert services[..j] == services;
    return isService, None;
  }

  /** A document whose `requiredServices` was set to a list the merge can scan yields
      that list back. */
  lemma ServicesOfMerged(start: Json, merged: seq<Json>)
    requires start.JObj? && EntriesError(merged).None?
    ensures ServicesOf(WithServices(start, merged)) == Ok(merged)
  {
  }

  /** A pass keeps a scannable list scannable. */
  lemma StepKeepsEntriesScannable(merged: seq<Json>, name: string)
    requires EntriesError(merged).None?
    ensures EntriesError(Step(merged, name)).None?
  {
    assert Step(merged, name)[..|merged|] == merged;
  }
}
