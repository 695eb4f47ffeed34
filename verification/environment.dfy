/** What the converter reads: the parsed command line, and the services it calls but does
    not define (path functions, the file system, module loading, the schema validator). */
module Environment {
  import opened Wrappers
  import opened JsValues

  /** The parsed command line: every flag's value (a repeated flag holds an array) and the
      positional arguments `argv._` (yargs makes a numeric token a number). A flag whose value
      is `undefined` is simply absent. */
  datatype Args = Args(flags: map<string, Value>, positional: seq<Value>)

  /** How `interpret` says a config file extension is made loadable. */
  datatype Descriptor =
    | NoCompiler                          // a falsy entry, such as the one for `.js`
    | ModuleName(name: string)            // `require(name)` for its side effect
    | ModuleWithRegister(moduleName: string)  // `{ module, register }`: require, then register
    | Alternatives(options: seq<Descriptor>)

  /** A config file to load and the extension that decides its compiler. */
  datatype ConfigFileRef = ConfigFileRef(path: string, ext: string)

  /** The services the converter calls, as oracles. `resolve` is `path.resolve` against the
      working directory `cwd`. */
  datatype Env = Env(
    cwd: string,
    sep: string,
    resolve: string -> string,
    isAbsolute: string -> bool,
    basename: string -> string,
    dirname: string -> string,
    extname: string -> string,
    fileExists: string -> bool,
    isDirectory: string -> bool,
    extensions: seq<string>,
    compilerFor: string -> Descriptor,
    canRequire: string -> bool,
    canRegister: string -> bool,
    loadConfig: string -> Option<Value>,
    schemaErrors: Value -> seq<string>,
    parseQuery: string -> Result<Value, string>,
    resolvePlugin: string -> Option<string>,
    canConstruct: (string, Option<Value>) -> bool
  )

  /** `argv[name]` is truthy. */
  predicate Given(a: Args, name: string) {
    name in a.flags && Truthy(a.flags[name])
  }
}
