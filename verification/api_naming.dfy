/** The naming callbacks that the yapi-to-typescript generator calls for each
    interface of a Swagger document (`ytt.config.ts`): the kept path
    components (`name`), the interface filter (`preproccessInterface`), the
    output file path (`outputFilePath`) and the request/response type names
    (`genApiInterfaceName`, `getRequestDataTypeName`,
    `getResponseDataTypeName`). The case converters the generator supplies
    are opaque functions carried in a `ChangeCase` value. */
module ApiNaming {
  import opened Outcomes
  import opened JsString

  /** Directory, under the project root, that receives generated types. */
  const TypesRoot: string := "src/api/types/"

  /** First-component prefixes of interfaces the filter drops: mini-program
      services, app services and internal feign clients. */
  const ExcludedPrefixes: seq<string> := ["mini-", "app-", "feign"]

  /** `interfaceInfo.parsedPath`: the directory and the extension-less base
      name of the interface's path. */
  datatype ParsedPath = ParsedPath(dir: string, name: string)

  /** The parts of the generator's interface record the callbacks read. */
  datatype Interface = Interface(path: string, httpMethod: string, parsedPath: ParsedPath)

  /** The generator's case converters; their implementation is not part of
      this model, so any total string functions may stand for them. */
  datatype ChangeCase = ChangeCase(paramCase: string -> string, pascalCase: string -> string)

  /** Why the filter fails: with no `/` in the path there is no first kept
      component, and calling `startsWith` on `undefined` throws. */
  datatype FilterError = FirstPartUndefined

  /** What the filter hands back to the generator: `false` (skip the
      interface) or the interface record itself (process it). */
  datatype Verdict = Skip | Keep(info: Interface)

  /** The components of `path` at split indices 0 to 2; everything the
      naming callbacks look at. */
  function LeadingComponents(path: string): seq<string>
  {
    Slice(Split(path, '/'), 0, 3)
  }

  /** `name(path)`: the `/`-components of `path` at indices 1 and 2. Index 0
      is dropped whether or not it is empty, inner empty components are kept,
      and a short path yields fewer components (never padding). */
  function Name(path: string): (kept: seq<string>)
    ensures |kept| == if Occurrences(path, '/') < 2 then Occurrences(path, '/') else 2
    ensures forall i :: 0 <= i < |kept| ==> kept[i] == Split(path, '/')[i + 1]
    ensures forall i :: 0 <= i < |kept| ==> '/' !in kept[i]
  {
    Slice(Split(path, '/'), 1, 3)
  }

  /** `preproccessInterface(interfaceInfo)`: skip the interface when its
      first kept component starts with one of the excluded prefixes, and
      otherwise pass the record through unchanged. A path without `/`
      has no first kept component and the source throws. */
  function PreprocessInterface(info: Interface): (r: Result<Verdict, FilterError>)
    ensures r.Err? <==> '/' !in info.path
    ensures r.Ok? ==>
      (r.value.Skip? <==>
         exists p :: p in ExcludedPrefixes && StartsWith(Split(info.path, '/')[1], p))
    ensures r.Ok? && r.value.Keep? ==> r.value.info == info
  {
    var kept := Name(info.path);
    if |kept| == 0 then Err(FirstPartUndefined)
    else
      var firstPart := kept[0];
      if StartsWith(firstPart, "mini-") || StartsWith(firstPart, "app-")
         || StartsWith(firstPart, "feign")
      then
        assert firstPart == Split(info.path, '/')[1];
        assert "mini-" in ExcludedPrefixes && "app-" in ExcludedPrefixes && "feign" in ExcludedPrefixes;
        Ok(Skip)
      else Ok(Keep(info))
  }

  /** The directory, under `TypesRoot`, of one service's generated files. */
  function ServiceDir(serviceName: string): string
  {
    TypesRoot + serviceName + "/"
  }

  /** `outputFilePath(interfaceInfo, changeCase)`: the param-cased kept
      components of the raw path, joined by `/`, inside the service's
      directory and with the `.ts` extension. */
  function OutputFilePath(serviceName: string, info: Interface, cc: ChangeCase): (r: string)
    ensures StartsWith(r, ServiceDir(serviceName))
    ensures EndsWith(r, ".ts")
    ensures |Name(info.path)| == 0 ==> r == ServiceDir(serviceName) + ".ts"
  {
    var filePath := Join(MapSeq(cc.paramCase, Name(info.path)), "/");
    ServiceDir(serviceName) + filePath + ".ts"
  }

  /** The path the name functions work on:
      `${parsedPath.dir}/${parsedPath.name}`. */
  function FullPath(info: Interface): (r: string)
    ensures Split(r, '/') == Split(info.parsedPath.dir, '/') + Split(info.parsedPath.name, '/')
    ensures Occurrences(r, '/')
         == Occurrences(info.parsedPath.dir, '/') + Occurrences(info.parsedPath.name, '/') + 1
  {
    SplitAppend(info.parsedPath.dir, info.parsedPath.name, '/');
    info.parsedPath.dir + "/" + info.parsedPath.name
  }

  /** `genApiInterfaceName(interfaceInfo, changeCase)`: the pascal-cased kept
      components of the full path, concatenated with no separator. */
  function ApiInterfaceName(info: Interface, cc: ChangeCase): (r: string)
    ensures var kept := Name(FullPath(info));
            |kept| == 0 ==> r == ""
    ensures var kept := Name(FullPath(info));
            |kept| == 1 ==> r == cc.pascalCase(kept[0])
    ensures var kept := Name(FullPath(info));
            |kept| == 2 ==> r == cc.pascalCase(kept[0]) + cc.pascalCase(kept[1])
  {
    var parts := MapSeq(cc.pascalCase, Name(FullPath(info)));
    if |parts| == 2 then
      assert parts == [parts[0]] + [parts[1]];
      JoinCons(parts[0], [parts[1]], "");
      Join(parts, "")
    else Join(parts, "")
  }

  /** `getRequestDataTypeName`: the interface name with the suffix `Req`. */
  function RequestDataTypeName(info: Interface, cc: ChangeCase): (r: string)
    ensures EndsWith(r, "Req")
  {
    ApiInterfaceName(info, cc) + "Req"
  }

  /** `getResponseDataTypeName`: the interface name with the suffix `Res`. */
  function ResponseDataTypeName(info: Interface, cc: ChangeCase): (r: string)
    ensures EndsWith(r, "Res")
  {
    ApiInterfaceName(info, cc) + "Res"
  }
}
