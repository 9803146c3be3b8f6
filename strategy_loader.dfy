/** Loading a user strategy from a `module:function` path. */
module StrategyLoader {
  import opened Wrappers

  /** The exceptions `load_strategy` raises or lets through. */
  datatype LoadError =
    | ValueError                   // the path has no ':'
    | ImportError(moduleName: string) // the module could not be imported
    | AttributeError(name: string) // the module has no such attribute
    | TypeError(path: string)      // the attribute is not callable

  /** `path.split(":", 1)`: the text before the first ':' and the rest. */
  function SplitAtFirstColon(path: string): (r: Option<(string, string)>)
    ensures r.None? <==> ':' !in path
    ensures r.Some? ==> ':' !in r.value.0 && r.value.0 + ":" + r.value.1 == path
  {
    if path == [] then None
    else if path[0] == ':' then Some(([], path[1..]))
    else
      match SplitAtFirstColon(path[1..])
      case None => None
      case Some(parts) => Some(([path[0]] + parts.0, parts.1))
  }

  /** The split is the only way to write `path` as a colon-free module
      part, ':' and the rest. */
  lemma SplitUnique(path: string, m: string, f: string)
    requires ':' !in m && m + ":" + f == path
    ensures SplitAtFirstColon(path) == Some((m, f))
  {
    var r := SplitAtFirstColon(path).value;
    var k := |r.0|;
    assert k == |m| by {
      assert path[k] == ':' && path[|m|] == ':';
      assert forall i :: 0 <= i < k ==> path[i] == r.0[i];
      assert forall i :: 0 <= i < |m| ==> path[i] == m[i];
    }
    assert r.0 == path[..k] == m;
    assert r.1 == path[k + 1..] == f;
  }

  /** Only the first ':' splits: the function part may hold more colons. */
  lemma SplitKeepsLaterColons()
    ensures SplitAtFirstColon("pkg:a:b") == Some(("pkg", "a:b"))
  {
    SplitUnique("pkg:a:b", "pkg", "a:b");
  }

  /** Either part may be empty. */
  lemma SplitEmptyParts()
    ensures SplitAtFirstColon(":run") == Some(("", "run"))
  {
    SplitUnique(":run", "", "run");
  }

  /** `load_strategy`: `importModule` stands for `importlib.import_module`,
      `getAttr` for `getattr` and `isCallable` for `callable`. */
  function LoadStrategy<M, A>(path: string, importModule: string -> Result<M, LoadError>,
                              getAttr: (M, string) -> Result<A, LoadError>,
                              isCallable: A -> bool): (r: Result<A, LoadError>)
    ensures ':' !in path ==> r == Failure(ValueError)
    ensures ':' in path ==>
      var parts := SplitAtFirstColon(path).value;
      && (importModule(parts.0).Failure? ==> r == Failure(importModule(parts.0).error))
      && (importModule(parts.0).Success? ==>
            var attr := getAttr(importModule(parts.0).value, parts.1);
            && (attr.Failure? ==> r == attr)
            && (attr.Success? && !isCallable(attr.value) ==> r == Failure(TypeError(path)))
            && (attr.Success? && isCallable(attr.value) ==> r == attr))
    ensures r.Success? ==> isCallable(r.value)
  {
    match SplitAtFirstColon(path)
    case None => Failure(ValueError)
    case Some(parts) =>
      match importModule(parts.0)
      case Failure(e) => Failure(e)
      case Success(loaded) =>
        match getAttr(loaded, parts.1)
        case Failure(e) => Failure(e)
        case Success(func) =>
          if !isCallable(func) then Failure(TypeError(path)) else Success(func)
  }

  /** Loading "mymod:my" returns the attribute `my` of module `mymod`
      itself when it is callable. */
  lemma LoadExample<M, A>(importModule: string -> Result<M, LoadError>,
                          getAttr: (M, string) -> Result<A, LoadError>,
                          isCallable: A -> bool, m: M, f: A)
    requires importModule("mymod") == Success(m)
    requires getAttr(m, "my") == Success(f) && isCallable(f)
    ensures LoadStrategy("mymod:my", importModule, getAttr, isCallable) == Success(f)
  {
    SplitUnique("mymod:my", "mymod", "my");
  }
}
