/** Why a conversion stops. Some failures print a message and exit the process with status
    -1; the others are exceptions that propagate to the caller. */
module Failures {
  import opened Wrappers
  import opened Strings
  import opened JsValues

  datatype Failure =
    | InvalidConfiguration(errors: seq<string>, received: Value)
    | ConfigurationNameNotFound(configName: Value)
    | MissingAliasName(flag: string)
    | InvalidPluginArguments(name: string, reason: string)
    | CannotResolvePlugin(name: string)
    | CannotLoadPlugin(name: string, path: string)
    | CannotInstantiatePlugin(name: string, path: string)
    | CompilerNotRegistered(moduleName: string)
    | ConfigurationNotLoaded(path: string)
    | TypeError(message: string)

  type Res<T> = Result<T, Failure>

  /** True for the failures the converter reports itself and ends with `process.exit(-1)`. */
  predicate ExitsProcess(f: Failure) {
    f.InvalidConfiguration? || f.ConfigurationNameNotFound? || f.InvalidPluginArguments?
    || f.CannotResolvePlugin?
  }

  /** The text printed (or carried by the thrown error). The schema validator's own report is
      represented by its list of error texts. */
  function Message(f: Failure): string {
    match f
    case InvalidConfiguration(errors, _) => Join(errors, "\n")
    case ConfigurationNameNotFound(name) => "Configuration with name '" + Display(name) + "' was not found."
    case MissingAliasName(flag) => "--" + flag + " <string>=<string>"
    case InvalidPluginArguments(name, reason) => "Invalid plugin arguments " + name + " (" + reason + ")."
    case CannotResolvePlugin(name) => "Cannot resolve plugin " + name + "."
    case CannotLoadPlugin(name, path) => "Cannot load plugin " + name + ". (" + path + ")"
    case CannotInstantiatePlugin(name, path) => "Cannot instantiate plugin " + name + ". (" + path + ")"
    case CompilerNotRegistered(m) => "Cannot find module '" + m + "'"
    case ConfigurationNotLoaded(path) => "Cannot load configuration " + path
    case TypeError(message) => message
  }
}
