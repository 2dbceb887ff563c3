/** The ten settings of a component, as the config objects of the generator name them. */
module ComponentSettings {
  import opened JsValue

  datatype Setting =
    | ComponentName
    | AddChildrenProps
    | UseClientDirective
    | UseInlineExport
    | CreateCssFile
    | CssFileAsModule
    | CssFileName
    | CreateComponentIndex
    | ComponentFileExtension
    | AddXToExtension

  /** The property name of a setting in `COMPONENT_CONFIG` and in the config file. */
  function KeyName(s: Setting): string {
    match s
    case ComponentName => "COMPONENT_NAME"
    case AddChildrenProps => "ADD_CHILDREN_PROPS"
    case UseClientDirective => "USE_CLIENT_DIRECTIVE"
    case UseInlineExport => "USE_INLINE_EXPORT"
    case CreateCssFile => "CREATE_CSS_FILE"
    case CssFileAsModule => "CSS_FILE_AS_MODULE"
    case CssFileName => "CSS_FILE_NAME"
    case CreateComponentIndex => "CREATE_COMPONENT_INDEX"
    case ComponentFileExtension => "COMPONENT_FILE_EXTENSION"
    case AddXToExtension => "ADD_X_TO_EXTENSION"
  }

  /** A config object with an entry for every setting. */
  predicate Complete(entries: map<Setting, Value>) {
    forall s: Setting :: s in entries
  }

  /** `obj?.KEY` on an optional config object. */
  function Lookup(config: Option<map<Setting, Value>>, s: Setting): Value {
    match config
    case None => Undefined
    case Some(m) => if s in m then m[s] else Undefined
  }
}
