/** The runtime services the trace engine consults, as uninterpreted data:
    PHP reflection of functions and classes, and path prettification. */
module Reflection {
  import opened Outcomes

  /** What `ReflectionFunctionAbstract` tells about a function or method. */
  datatype FunctionInfo = FunctionInfo(
    internal: bool,              // `isInternal()`
    parameters: seq<string>,     // the names of `getParameters()`, in order
    file: Option<string>)        // `getFileName()`; None where PHP gives false

  /** What `ReflectionClass` tells about a class. */
  datatype ClassInfo = ClassInfo(
    namespace: string,                          // `getNamespaceName()`
    methods: string -> Option<FunctionInfo>)    // `getMethod($name)`; None where `hasMethod` fails

  /** The running program as reflection and the path helper see it. */
  datatype Runtime = Runtime(
    functions: string -> Option<FunctionInfo>,  // `function_exists` + `ReflectionFunction`
    classes: string -> Option<ClassInfo>,       // `ReflectionClass` by class name
    prettify: string -> string)                 // `Location::getPrettyFile`

  /** `ReflectionClass($class)->getMethod($method)`: None when the class or the
      method is unknown. */
  function MethodInfo(rt: Runtime, className: string, methodName: string): (r: Option<FunctionInfo>)
    ensures rt.classes(className).None? ==> r.None?
    ensures rt.classes(className).Some? ==> r == rt.classes(className).value.methods(methodName)
  {
    match rt.classes(className)
    case None => None
    case Some(info) => info.methods(methodName)
  }
}
