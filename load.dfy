/** The module-level choice between the definition file and the template
    (lines 193-201). */
module Load {
  import opened Wrappers
  import opened JsonValue
  import Template

  /** What the file system offers at `FILE_PATH`: no regular file (`os.path.isfile`
      is false), or a file whose opening and `json.load` either failed (`None`) or
      produced a document. */
  datatype FileState = NoFile | File(parsed: Option<Json>)

  /** The globals `BASE_POLICY` and `IS_BASE` once the module has been loaded. */
  datatype Loaded = Loaded(policy: Json, isBase: bool)

  /** The loaded document replaces the template wholesale and clears `IS_BASE`;
      any failure keeps the template and `IS_BASE`. */
  function LoadOrDefault(file: FileState): (r: Loaded)
    ensures r.isBase <==> !(file.File? && file.parsed.Some?)
    ensures !r.isBase ==> r.policy == file.parsed.value
    ensures r.isBase ==> r.policy == Template.BasePolicy
  {
    match file
    case File(Some(doc)) => Loaded(doc, false)
    case _ => Loaded(Template.BasePolicy, true)
  }

  /** The working document is exactly one of the two sources, never a mixture. */
  lemma NeverHybrid(file: FileState)
    ensures LoadOrDefault(file).policy == Template.BasePolicy ||
            (file.File? && file.parsed.Some? && LoadOrDefault(file).policy == file.parsed.value)
  {
  }

  /** A missing or unreadable file leaves the template in force, exactly. */
  lemma FallbackIsTemplate(file: FileState)
    requires file.NoFile? || file == File(None)
    ensures LoadOrDefault(file) == Loaded(Template.BasePolicy, true)
  {
  }
}
