/** Three runs of the script end to end: the load of the module globals followed by
    the merge of `--required-services`. */
module Scenarios {
  import opened Wrappers
  import opened JsonValue
  import Split
  import Template
  import opened Load
  import opened Merge

  /** The document a run leaves in `BASE_POLICY` before it is written out. */
  function Run(file: FileState, requiredServices: Option<string>): (r: Result<Json, Error>)
    ensures requiredServices.None? ==> r == Ok(LoadOrDefault(file).policy)
  {
    MergePolicy(LoadOrDefault(file).policy, requiredServices)
  }

  /** `"a,b"` splits into the two names when neither holds a comma. */
  lemma SplitTwo(a: string, b: string)
    requires ',' !in a && ',' !in b
    ensures Split.SplitOn(a + "," + b, ',') == [a, b]
  {
    Split.SplitPrefix(a, b, ',');
    Split.SplitNoSeparator(b, ',');
  }

  /** A document with no dependencies and two different names `a,b`: exactly the two
      new records, in the order given. */
  lemma NoDependenciesTwoNames(doc: Json, a: string, b: string)
    requires doc.JObj? && "requiredServices" in doc.fields && doc.fields["requiredServices"] == JArr([])
    requires ',' !in a && ',' !in b && a != b
    ensures MergePolicy(doc, Some(a + "," + b)) == Ok(WithServices(doc, [NewDependency(a), NewDependency(b)]))
  {
    SplitTwo(a, b);
    var names := [a, b];
    assert names[..1] == [a];
    assert ServicesOf(doc) == Ok([]);
    assert MergeServices([], [a]) == [NewDependency(a)];
    assert !LastHasUrl([NewDependency(a)], b);
    assert MergeServices([], names) == [NewDependency(a), NewDependency(b)];
  }

  /** A document whose only dependency already has `url` `a`, and `a,c` with `c`
      another name: that entry stays as it was and one record for `c` follows it. */
  lemma ExistingFirstName(doc: Json, entry: Json, a: string, c: string)
    requires doc.JObj? && "requiredServices" in doc.fields && doc.fields["requiredServices"] == JArr([entry])
    requires entry.JObj? && "url" in entry.fields && entry.fields["url"] == JStr(a)
    requires ',' !in a && ',' !in c && a != c
    ensures MergePolicy(doc, Some(a + "," + c)) == Ok(WithServices(doc, [entry, NewDependency(c)]))
  {
    SplitTwo(a, c);
    var names := [a, c];
    assert names[..1] == [a];
    assert [entry][..0] == [];
    assert EntriesError([entry]) == None;
    assert ServicesOf(doc) == Ok([entry]);
    assert MergeServices([entry], [a]) == [entry];
    assert !LastHasUrl([entry], c);
    assert MergeServices([entry], names) == [entry, NewDependency(c)];
  }

  /** No definition file and `service-a,service-b`: the template gets exactly the two
      new records, `service-a` then `service-b`. */
  lemma FreshTemplateTwoNames()
    ensures Run(NoFile, Some("service-a,service-b")) ==
            Ok(WithServices(Template.BasePolicy, [NewDependency("service-a"), NewDependency("service-b")]))
  {
    Template.BasePolicyShape();
    NoDependenciesTwoNames(Template.BasePolicy, "service-a", "service-b");
    assert "service-a" + "," + "service-b" == "service-a,service-b";
  }

  /** A loaded document whose only dependency already has `url` `service-a`, and
      `service-a,service-c`: that entry stays as it was and one record for
      `service-c` follows it. */
  lemma ExistingDependencyKept(doc: Json, entry: Json)
    requires doc.JObj? && "requiredServices" in doc.fields && doc.fields["requiredServices"] == JArr([entry])
    requires entry.JObj? && "url" in entry.fields && entry.fields["url"] == JStr("service-a")
    ensures Run(File(Some(doc)), Some("service-a,service-c")) ==
            Ok(WithServices(doc, [entry, NewDependency("service-c")]))
  {
    ExistingFirstName(doc, entry, "service-a", "service-c");
    assert "service-a" + "," + "service-c" == "service-a,service-c";
  }

  /** No definition file and no argument: the document written is the template, so
      its `requiredServices` is empty. */
  lemma FreshTemplateNoArgument()
    ensures Run(NoFile, None) == Ok(Template.BasePolicy)
    ensures Run(NoFile, None).value.fields["requiredServices"] == JArr([])
  {
    Template.BasePolicyShape();
  }
}
