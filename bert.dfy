/** `Bert`'s configuration: its defaults, which model and revision are
    fetched, and the activation override. */
module Bert {
  import opened Ecs

  datatype BertConfig = BertConfig(modelId: Option<string>, revision: Option<string>, normalizeEmbeddings: bool, approximateGelu: bool)

  const DEFAULT_MODEL: string := "sentence-transformers/all-MiniLM-L6-v2"
  const DEFAULT_REVISION: string := "refs/pr/21"
  const MAIN_REVISION: string := "main"

  /** `BertConfig::default`: no model or revision chosen, embeddings
      normalised, exact GELU. */
  function Default(): (c: BertConfig)
    ensures c.modelId.None? && c.revision.None?
    ensures c.normalizeEmbeddings && !c.approximateGelu
  {
    BertConfig(None, None, true, false)
  }

  /** The `(model_id, revision)` resolution in `Bert::new`. */
  function Resolve(c: BertConfig): (r: (string, string))
  {
    match (c.modelId, c.revision)
    case (Some(m), Some(rev)) => (m, rev)
    case (Some(m), None) => (m, MAIN_REVISION)
    case (None, Some(rev)) => (DEFAULT_MODEL, rev)
    case (None, None) => (DEFAULT_MODEL, DEFAULT_REVISION)
  }

  /** A given model or revision is always used as is. A missing model is the
      MiniLM default; a missing revision is `main` for a model the caller
      chose and `refs/pr/21` for the default model. */
  lemma ResolveSpec(c: BertConfig)
    ensures c.modelId.Some? ==> Resolve(c).0 == c.modelId.value
    ensures c.revision.Some? ==> Resolve(c).1 == c.revision.value
    ensures c.modelId.None? ==> Resolve(c).0 == "sentence-transformers/all-MiniLM-L6-v2"
    ensures c.revision.None? ==> Resolve(c).1 == if c.modelId.Some? then "main" else "refs/pr/21"
  {
  }

  /** The default configuration fetches `refs/pr/21` of the MiniLM model. */
  lemma DefaultResolves()
    ensures Resolve(Default()) == ("sentence-transformers/all-MiniLM-L6-v2", "refs/pr/21")
  {
  }

  /** The activations a downloaded model configuration may name. */
  datatype HiddenAct = Gelu | GeluApproximate | Relu

  /** The activation the model is loaded with: approximate GELU when the
      configuration asks for it, otherwise whatever the downloaded
      `config.json` says. */
  function HiddenActFor(c: BertConfig, downloaded: HiddenAct): (a: HiddenAct)
    ensures c.approximateGelu ==> a == GeluApproximate
    ensures !c.approximateGelu ==> a == downloaded
  {
    if c.approximateGelu then GeluApproximate else downloaded
  }
}
