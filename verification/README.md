# Naming callbacks of the admin front end's build configuration

This Dafny project models the two pieces of logic in the repository's build
configuration.

- **API type generation** (`ytt.config.ts`). The yapi-to-typescript
  generator reads a Swagger document and calls back into this configuration
  for each interface it finds:
  - `name` keeps the `/`-components of a path at split indices 1 and 2;
  - `preproccessInterface` drops interfaces whose first kept component starts
    with `mini-`, `app-` or `feign`;
  - `outputFilePath` builds `src/api/types/<service>/<kept components,
    param-cased, joined by '/'>.ts`;
  - `genApiInterfaceName`, `getRequestDataTypeName` and
    `getResponseDataTypeName` build the pascal-cased type names with the
    suffixes `Req` and `Res`.
- **Route names and a component resolver** (`vite.config.ts`). The router's
  `getRouteName` turns a pascal-case route name into kebab case with
  `.replace(/([a-z\d])([A-Z])/g, '$1-$2').toLowerCase()`. The components
  plugin's resolver maps `VueApexCharts` to the default export of
  `vue3-apexcharts`.

Modules:

- `Outcomes` holds `Option` and `Result`. They stand in for `undefined` and
  for a thrown exception.
- `JsString` holds the JavaScript built-ins the callbacks use, with
  ECMAScript semantics. These are `split` with a one-character separator,
  `join`, `slice`, `map` and `startsWith`. It also proves the split/join
  round trip in both directions.
- `ApiNaming` and `ApiNamingProperties` model `ytt.config.ts`.
- `RouteNaming` and `RouteNamingProperties` model `vite.config.ts`.

The case converters `changeCase.paramCase` and `changeCase.pascalCase` belong
to the generator and are opaque here. The `ChangeCase` datatype carries them
as arbitrary total functions, so every property about names holds whatever
those converters do. The one exception is `OutputFilePathComponents`: it
splits the output path back into components, and that needs a `paramCase`
that puts no `/` into them.

Every callback is a Dafny function, so the same interface record and the same
converters always yield the same strings. Determinism therefore holds by
construction and needs no lemma.

Where the code and the code's own descriptions differ, the model follows the
code:

- **Index 0 is always dropped.** `slice(1, 3)` drops split index 0 whether or
  not it is empty. Empty inner components are kept (`"a/b/c"` keeps
  `["b","c"]`, and `"//x"` keeps `["","x"]`). It does not skip empty leading
  components.
- **The filter throws on a path without `/`.** The empty path is such a path,
  because `"".split('/')` is `[""]`. Then `firstPart` is `undefined` and
  `firstPart.startsWith` throws a `TypeError`. The filter does not include
  such interfaces by default. `PreprocessInterface` returns
  `Err(FirstPartUndefined)` for exactly these paths.
- **The output path names components 1 and 2, not the last two.** The comment
  at `ytt.config.ts:75` says the folder name takes the last two components of
  the API path. The code keeps components 1 and 2, and the two agree only for
  paths with exactly two components after the leading `/`.
  `OutputFilePathOfRootedPath` shows the consequence. For
  `/workflow-service/process/list`, the service name is the first kept
  component, so the file is
  `src/api/types/workflow-service/<paramCase("workflow-service")>/<paramCase("process")>.ts`,
  not `.../process/list.ts`. A service-relative path such as `/process/list`
  does give `.../process/list.ts`.

## Model

| member | source | states |
|---|---|---|
| `JsString.Split` | ytt.config.ts:12 | `path.split('/')` has one more component than the path has separators, and no component contains `/` |
| `JsString.Join` | ytt.config.ts:78-80 | `join` of no parts is `""` and of one part is that part; with `JoinSplit` and `SplitJoin` it is the inverse of `split` |
| `JsString.JoinSplit` | ytt.config.ts:12 | joining the components of `split(d)` with `d` gives the string back |
| `JsString.SplitJoin` | ytt.config.ts:78-80 | joining non-empty, separator-free parts with `/` and splitting again gives the parts back |
| `JsString.MapSeq` | ytt.config.ts:29 | `map(f)` keeps the length and puts `f(xs[i])` at index i |
| `JsString.StartsWith` | ytt.config.ts:66-68 | `startsWith(p)` holds exactly when `p` fits in the string and agrees with it character by character |
| `JsString.Slice` | ytt.config.ts:14 | `slice(1, 3)` clamps both bounds to the length; the result holds the elements at indices `start..` in order, with no padding |
| `ApiNaming.Name` | ytt.config.ts:11-15 | `name(path)` holds min(number of `/`, 2) components, and component i is split component i+1; none contains `/` |
| `ApiNamingProperties.NameOfEmptyPath` | ytt.config.ts:12-14 | `name("")` is `[]` |
| `ApiNamingProperties.NameOfShortPath` | ytt.config.ts:12-14 | `name("/a")` is `["a"]`, with no padding |
| `ApiNamingProperties.NameDropsNonEmptyFirstComponent` | ytt.config.ts:12-14 | `name("a/b/c")` is `["b","c"]`: index 0 is dropped even when it is not empty |
| `ApiNamingProperties.NameKeepsEmptyComponents` | ytt.config.ts:12-14 | `name("//x")` is `["","x"]`: empty inner components are kept |
| `ApiNamingProperties.NameOfLongPath` | ytt.config.ts:12-14 | `name("/a/b/c/d")` is `["a","b"]` |
| `ApiNamingProperties.NameIgnoresTrailingSegments` | ytt.config.ts:14 | once a path has two separators, appending `/rest` never changes the kept components |
| `ApiNamingProperties.NameDeterminedByLeadingComponents` | ytt.config.ts:14 | two paths that agree on split components 0 to 2 keep the same components |
| `ApiNamingProperties.NameReassembles` | ytt.config.ts:11-15 | the path starts with component 0, a `/` and the kept components joined by `/`, so the kept components are contiguous and in order |
| `ApiNamingProperties.NameOfRootedPath` | ytt.config.ts:11-15 | `/a/b` and `/a/b/rest` both keep exactly `[a, b]` when `a` and `b` contain no `/` |
| `ApiNamingProperties.FirstKeptComponent` | ytt.config.ts:61-62 | the first kept component of `/a` or `/a/...` is `a` |
| `ApiNaming.PreprocessInterface` | ytt.config.ts:60-71 | the filter throws exactly when the path has no `/`; otherwise it skips exactly when split component 1 starts with one of `mini-`, `app-`, `feign`, and else returns the record unchanged |
| `ApiNamingProperties.FilterDropsMiniServices` | ytt.config.ts:66-70 | `/mini-app/foo/bar` is skipped |
| `ApiNamingProperties.FilterDropsAppServices` | ytt.config.ts:66-70 | `/app-x/foo` is skipped |
| `ApiNamingProperties.FilterDropsFeignPrefix` | ytt.config.ts:66-70 | `/feignClient/foo` is skipped: the test is a prefix test, not an equality test |
| `ApiNamingProperties.FilterKeepsAppWithoutHyphen` | ytt.config.ts:66-70 | `/appx/foo` is kept and passed through unchanged, because `app-` needs its hyphen |
| `ApiNamingProperties.FilterKeepsOrdinaryPath` | ytt.config.ts:66-70 | `/process/list` is kept and passed through unchanged |
| `ApiNamingProperties.FilterThrowsWithoutSeparator` | ytt.config.ts:61-66 | for `""` and `health` the first part is undefined and the filter throws |
| `ApiNaming.OutputFilePath` | ytt.config.ts:74-83 | the file path always starts with `src/api/types/<service>/` and ends with `.ts`; with no kept components it is `src/api/types/<service>/.ts` |
| `ApiNamingProperties.OutputFilePathComponents` | ytt.config.ts:76-82 | the text between the service directory and `.ts`, split on `/`, gives back the param-cased kept components of the raw path, in order |
| `ApiNamingProperties.OutputFilePathOfRootedPath` | ytt.config.ts:74-83 | `/a/b` and `/a/b/rest` are written to `src/api/types/<service>/<paramCase(a)>/<paramCase(b)>.ts` |
| `ApiNamingProperties.SameLeadingComponentsSameOutput` | ytt.config.ts:60-83 | raw paths that agree on split components 0 to 2 get the same filter verdict and the same output file |
| `ApiNamingProperties.SameNameSameArtifacts` | ytt.config.ts:74-93 | interfaces with the same kept components get the same file and the same type names |
| `ApiNamingProperties.SiblingEndpointsCollide` | ytt.config.ts:74-93 | `/a/b/x` and `/a/b/y` are distinct interfaces that silently share one file and one pair of type names |
| `ApiNaming.FullPath` | ytt.config.ts:25 | the components of `dir/name` are those of `dir` followed by those of `name`, and it has one more `/` than the two together |
| `ApiNaming.ApiInterfaceName` | ytt.config.ts:23-30 | the interface name is the pascal-cased kept components of `dir/name` run together with no separator: empty, `pascalCase(k0)`, or `pascalCase(k0) + pascalCase(k1)` |
| `ApiNamingProperties.TypeNamesOfRootedPath` | ytt.config.ts:23-30 | for `/a/b` and `/a/b/rest` the interface name is `pascalCase(a) + pascalCase(b)` and the type names add `Req` and `Res` to it |
| `ApiNamingProperties.TypeNameComponents` | ytt.config.ts:25-26 | the type names use the components of `dir` followed by those of the base name; a `dir` with two or more separators decides them alone |
| `ApiNamingProperties.SameLeadingComponentsSameTypeNames` | ytt.config.ts:23-30 | `dir/name` paths that agree on split components 0 to 2 get the same request and response type names |
| `ApiNaming.RequestDataTypeName` | ytt.config.ts:86-88 | the request type name ends with `Req` |
| `ApiNaming.ResponseDataTypeName` | ytt.config.ts:91-93 | the response type name ends with `Res` |
| `ApiNamingProperties.RequestResponseNamesDiffer` | ytt.config.ts:86-93 | the two type names share the interface name as a base, have the same length, differ only in their last letter, and are never equal |
| `RouteNaming.ToLowerCase` | vite.config.ts:24 | lower-casing keeps the length and maps each character through ASCII lower-casing, so no `A`-`Z` remains |
| `RouteNaming.RegexHyphenate` | vite.config.ts:23 | the global regex replacement adds exactly one character per lower/digit-then-upper boundary and keeps the first character; `RegexIsPositionwise` equates it with `Hyphenate` |
| `RouteNaming.Hyphenate` | vite.config.ts:23 | the position-wise reference rewrite adds exactly one character per boundary and keeps the first character; `HyphenateSnoc` says where each hyphen goes |
| `RouteNaming.RouteName` | vite.config.ts:21-25 | the route name contains no ASCII upper-case letter |
| `RouteNamingProperties.RegexIsPositionwise` | vite.config.ts:23 | the global regex replacement, which resumes after each two-character match, equals inserting `-` at every lower/digit-then-upper boundary |
| `RouteNamingProperties.HyphenateSnoc` | vite.config.ts:23 | a `-` is inserted before character i exactly when character i-1 is in `[a-z0-9]` and character i is in `[A-Z]`; nothing else changes |
| `RouteNamingProperties.HyphenateCountsHyphens` | vite.config.ts:23 | the rewrite adds exactly one `-` per boundary |
| `RouteNamingProperties.HyphenateRemovesToInput` | vite.config.ts:23 | deleting every `-` from the rewrite's output gives the input with its own hyphens deleted |
| `RouteNamingProperties.LowerKeepsHyphens` | vite.config.ts:24 | lower-casing keeps the number of hyphens, and it commutes with deleting them |
| `RouteNamingProperties.RouteNameAddsOnlyBoundaryHyphens` | vite.config.ts:22-24 | the route name is as long as the input plus its boundaries, has one extra `-` per boundary, and with hyphens deleted equals the lower-cased input with hyphens deleted |
| `RouteNamingProperties.RouteNameUnhyphenates` | vite.config.ts:23-24 | for an input without `-`, deleting the hyphens from the route name gives the lower-cased input |
| `RouteNamingProperties.RouteNameWithoutBoundaries` | vite.config.ts:23-24 | an input with no boundary is only lower-cased |
| `RouteNamingProperties.RouteNameIdempotent` | vite.config.ts:21-25 | applying the transform to its own output changes nothing |
| `RouteNamingProperties.RouteNameSplitsWords` | vite.config.ts:23-24 | `UserList` becomes `user-list` |
| `RouteNamingProperties.RouteNameAfterDigit` | vite.config.ts:23-24 | `V2Api` becomes `v2-api`: a digit opens a boundary |
| `RouteNamingProperties.RouteNameKeepsCapitalRuns` | vite.config.ts:23-24 | `APIDocs` becomes `apidocs`: a run of capitals gets no hyphen |
| `RouteNaming.ResolveComponent` | vite.config.ts:55-59 | the resolver answers exactly for `VueApexCharts`, with the default export of `vue3-apexcharts` under that same name; any other name gets nothing |

## Left out

- Plugin activation and options in `vite.config.ts` are not modelled. This covers Vue, JSX, devtools, Vuetify, layouts, auto-import globs, i18n, the alias, PostCSS and build flags. They are declarative wiring for external tools and have no behaviour of their own.
- `getPascalCaseRouteName` (`vite.config.ts:22`) is router-library code. Its result is the input of `RouteName`.
- `changeCase.paramCase` and `changeCase.pascalCase` are generator code. They are arbitrary total functions in `ChangeCase`.
- `RouteNaming.ToLowerCase` lower-cases only ASCII `A`-`Z` and leaves every other character unchanged. JavaScript's `toLowerCase` also maps non-ASCII letters, and those Unicode tables are not modelled.
- Fetching the Swagger document from `serverUrl`, the generation engine, `defineConfig` and file writing are not modelled (`ytt.config.ts:3, 31-35, 112-115`). They are network and filesystem I/O done by an external tool. The service name that `config` receives is a parameter of `OutputFilePath`.
- Static option records are configuration data with no logic to prove: `typesOnly`, `reactHooks`, `jsonSchema`, `comment` (including the `extraTags` record builder), `prodEnvName`, `dataKey` and `categories` (`ytt.config.ts:34-58, 95-109`).
- `parsedPath` is an input of the model. How the generator derives `dir` and `name` from `path` (extension stripping) is generator code.
