/** What the plugin receives from the editor and from Python, taken as given:
    the regular-expression engine, module loading, calling a loaded predicate,
    and the set of grammar resources that exist. */
module Host {
  import opened Common

  /** The `args` mapping of a function rule, passed as keyword arguments. */
  type Args = map<string, string>

  /** A callable found by the plugin loader: the resource it was loaded from,
      the module name it was registered under and the attribute looked up. */
  datatype Callable = Callable(pathName: string, moduleName: string, functionName: string)

  /** What calling a loaded predicate did: returned a value of the given
      truthiness, or raised. */
  datatype CallResult = Gave(truthy: bool) | Threw

  datatype Env = Env(
    /** `sublime.platform() == "windows"` */
    windows: bool,
    /** ST_LANGUAGES: the grammar file formats, preferred first */
    languages: seq<string>,
    /** `re.match(pattern, subject) is not None`; Raised for a malformed pattern */
    reMatch: (string, string) -> Outcome,
    /** `re.search(pattern, subject) is not None`; Raised for a malformed pattern */
    reSearch: (string, string) -> Outcome,
    /** loading the resource at the path, executing it and looking up the name all succeed */
    defines: (string, string) -> bool,
    /** calling a loaded predicate with the file name and optional keyword arguments */
    invoke: (Callable, Option<string>, Option<Args>) -> CallResult,
    /** the resources `sublime.load_resource` can load */
    resources: set<string>
  )

  /** The facts of one open document: its file name (None for a buffer never
      saved) and its text. */
  datatype Document = Document(fileName: Option<string>, contents: string)
}
