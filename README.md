# Request model for php-remote-storage

This project models the `Request` class of the remote-storage server
(`src/Http/Request.php`) in Dafny and proves what its accessors compute.

A `Request` holds four things for one inbound HTTP request: the server
metadata array (`$_SERVER`), the query parameters, the form parameters and
the optional raw body. The constructor checks that the web server supplied
five metadata keys, in a fixed order: `REQUEST_METHOD`, `SERVER_NAME`,
`SERVER_PORT`, `REQUEST_URI` and `SCRIPT_NAME`. If one is missing it throws
an `HttpException` with status 500 that names the first missing key.
Otherwise it stores the four inputs unchanged. Every accessor is a pure
function of the stored values:

- the authority (scheme and host);
- the absolute URI;
- the mount directory ("root") and its absolute URI;
- the request method and server name;
- whether the client is a browser;
- the path below the mount point ("path info");
- the body.

Files:

- `wrappers.dfy`: module `Wrappers`, with `Option` (PHP `null`) and
  `Result` (a value or a thrown exception).
- `php_strings.dfy`: module `PhpStrings`, the PHP built-ins the class
  uses, over character sequences. `IndexOf` models `mb_strpos`. `Tail`
  models `mb_substr` and `substr` with a start offset. `Dirname` models
  `dirname` on `/`-separated paths. `PhpIntCast` models the `(int)` cast
  and `DecimalString` models `%d`.
- `request.dfy`: module `Http`, the `Request` datatype with its accessors,
  the checking constructor `NewRequest`, and lemmas about them.

The fields are assigned once in the constructor and never change, so
`Request` is a datatype. Its predicate `Valid()` states that the five
required keys are present; every accessor that reads them requires it.
The constructor's check is a loop with an early exit, so it is a method
with a `while` loop. It returns `Success` with the request or `Failure`
with the exception.

`getAuthority` is modelled as written. It first resolves a scheme from
`REQUEST_SCHEME` (default `http`), then overwrites it with `https`. The
port suffix is added only for `http` on a port other than 80, so that
branch can never run. The authority is therefore always
`https://` + `SERVER_NAME`, whatever `REQUEST_SCHEME` and `SERVER_PORT`
hold. The model keeps the resolution and the port branch so that this can
be seen.

The constructor throws an `HttpException` with status 500. `dirname("")`
is `""`, so an empty `SCRIPT_NAME` gives the root `/`.

## Model

| member | source | states |
|---|---|---|
| `Http.NewRequest` | src/Http/Request.php:37-58 | Succeeds exactly when all five required keys are present. On success it returns a valid request holding the four inputs unchanged. On failure the error is the status-500 missing-header error for the first required key, in the listed order, that is absent. |
| `Http.ValidIffRequiredHeaders` | src/Http/Request.php:39-53 | A request is `Valid()` exactly when every key of the required list is in the server data. |
| `Http.MissingHeader` | src/Http/Request.php:51 | The missing-header error has status 500. |
| `Http.MissingHeaderNamesKey` | src/Http/Request.php:51 | Two missing-header errors are equal only for the same key, so the message identifies the missing key. |
| `Http.Request.Authority` | src/Http/Request.php:65-94 | For every valid request the authority is exactly `"https://" + SERVER_NAME`: the forced scheme makes the port branch unreachable. |
| `Http.AuthorityIgnoresSchemeAndPort` | src/Http/Request.php:68-93 | Setting `REQUEST_SCHEME` and `SERVER_PORT` to any values, or removing `REQUEST_SCHEME`, leaves the authority unchanged. |
| `Http.Request.Uri` | src/Http/Request.php:96-101 | The URI is `"https://" + SERVER_NAME + REQUEST_URI`. It starts with the authority and ends with the unmodified `REQUEST_URI`, query string included. |
| `Http.Request.Root` | src/Http/Request.php:103-111 | The root is never empty and always ends in `/`. It is `/` when `dirname(SCRIPT_NAME)` is `/` or empty, else that directory plus `/`. For an absolute `SCRIPT_NAME` it starts with `/` and is a prefix of `SCRIPT_NAME`. For a relative one it is `./` or a prefix of `SCRIPT_NAME`. |
| `Http.RootOfScriptInDirectory` | src/Http/Request.php:103-111 | A script `dir/name` (`dir` empty or absolute without a trailing slash, `name` without slashes) has root `dir/`. That root is `/` when `dir` is empty. |
| `Http.Request.RootUri` | src/Http/Request.php:113-116 | The root URI is `"https://" + SERVER_NAME + getRoot()`. It starts with the authority and ends in `/`. |
| `Http.RootUriPrefixesUri` | src/Http/Request.php:96-116 | When `REQUEST_URI` starts with the root, the root URI is a prefix of the URI. |
| `Http.Request.RequestMethod` | src/Http/Request.php:118-121 | Returns the stored `REQUEST_METHOD` value unchanged. |
| `Http.Request.ServerName` | src/Http/Request.php:123-126 | Returns the stored `SERVER_NAME` value unchanged. |
| `Http.Request.IsBrowser` | src/Http/Request.php:128-135 | True exactly when `HTTP_ACCEPT` is present and contains `text/html` as a substring. False when it is absent. |
| `Http.ExampleBrowser` | src/Http/Request.php:128-135 | An accept header `text/html,application/xhtml+xml` marks a browser. `application/json`, or no header, does not. |
| `Http.WithoutQuery` | src/Http/Request.php:139-143 | The query-stripped URI is a prefix of `REQUEST_URI` and contains no `?`. When it is shorter, the next character of `REQUEST_URI` is `?`. So it is everything before the first `?`. |
| `Http.WithoutQueryOf` | src/Http/Request.php:139-143 | For a `?`-free path followed by nothing or by a string starting with `?`, stripping the query gives back exactly that path. |
| `Http.Request.PathInfo` | src/Http/Request.php:137-156 | Path info never contains `?` and is a suffix of the query-stripped URI. If that URI starts with `SCRIPT_NAME`, then `SCRIPT_NAME` + path info is that URI. Otherwise, with root not `/`, it drops as many leading characters as the root has, minus one (empty when the URI is shorter). When the URI starts with the root, root-without-trailing-slash + path info is the URI, and path info starts with `/`. With root `/` it is the stripped URI itself. |
| `Http.PathBelowMount` | src/Http/Request.php:145-155 | The three-way fallback on a query-free path, with the same branch facts as for path info: its result is a suffix of the path. A `SCRIPT_NAME` prefix plus the result rebuilds the path. The root fallback keeps the root's trailing slash. With root `/` the path is returned unchanged. |
| `Http.ExampleScriptInUri` | src/Http/Request.php:137-148 | `REQUEST_URI` `/app/index.php/foo/bar?x=1` with `SCRIPT_NAME` `/app/index.php` has path info `/foo/bar`. |
| `Http.ExampleRootFallback` | src/Http/Request.php:150-153 | `REQUEST_URI` `/app/foo/bar` with `SCRIPT_NAME` `/app/index.php` (root `/app/`) has path info `/foo/bar`. |
| `Http.Request.Body` | src/Http/Request.php:173-176 | Returns the raw body given at construction. No body (`None`, PHP `null`) stays distinct from an empty body (`Some("")`). |
| `PhpStrings.IndexOf` | src/Http/Request.php:141 | `mb_strpos`: finds a match exactly when the needle occurs. The index returned is an occurrence with no earlier one. The result is 0 exactly when the needle is a prefix. |
| `PhpStrings.Tail` | src/Http/Request.php:147-152 | `substr`/`mb_substr` from an offset: the result is a suffix of the input. Within range it has the remaining length and the skipped prefix plus it rebuilds the input; past the end it is empty. |
| `PhpStrings.Dirname` | src/Http/Request.php:105 | `dirname` gives `""` only for the empty path, `"."` only for a relative path, or `"/"`. Otherwise it gives a non-empty proper prefix of the path that does not end in `/` and is followed in the path by `/`. |
| `PhpStrings.DirnameOfAbsolute` | src/Http/Request.php:105 | The directory of an absolute path is non-empty and absolute. |
| `PhpStrings.DirnameOfEntry` | src/Http/Request.php:105 | `dirname(dir + slashes + name + trailing slashes)` is `dir`, or `/` when `dir` is empty. Here `dir` has no trailing slash and `name` no slash. |
| `PhpStrings.DirnameOfRelativeName` | src/Http/Request.php:105 | `dirname` of a slash-free name, with any trailing slashes, is `.`. |
| `PhpStrings.DirnameOfSlashes` | src/Http/Request.php:105 | `dirname` of a non-empty run of slashes is `/`. |
| `PhpStrings.PhpIntCast` | src/Http/Request.php:79 | `(int)` of a string of decimal digits is its value; a string that does not start with a digit casts to 0. |
| `PhpStrings.PhpIntCastIgnoresRest` | src/Http/Request.php:79 | `(int)` reads the leading digits and ignores what follows them (`"80abc"` casts to 80). |
| `PhpStrings.DecimalString` | src/Http/Request.php:90 | `%d` of a non-negative integer is a non-empty string of decimal digits, with no leading zero except for 0 itself; it has one digit exactly for values below 10. |
| `PhpStrings.DecimalRoundTrip` | src/Http/Request.php:79-90 | Casting the `%d` text of a non-negative integer back with `(int)` gives the integer: the models of the two built-ins agree. `Request` itself only formats a value it has cast, in the unreachable port branch. |

## Left out

- `getQueryParameter`, `getPostParameter` and `getHeader` (src/Http/Request.php:158-171) delegate to `Utils::getValueFromArray`. That function is not part of this model, so its required/default/exception behaviour has no code to be checked against.
- `__toString` (src/Http/Request.php:60-63) is `var_export` formatting of the server array, which is library output formatting.
- `HttpException` is reduced to its message and status code.
- Strings are character sequences. `mb_strpos`/`mb_substr`/`mb_strlen` count characters while `substr` at src/Http/Request.php:147 counts bytes. They agree on ASCII, and the model treats them as agreeing; non-ASCII `SCRIPT_NAME` values are not modelled.
- `PhpStrings.IndexOf`: an empty needle is found at offset 0, as in PHP 8. PHP 7 instead warns and returns `false`, which would send an empty `SCRIPT_NAME` down the root branches of `getPathInfo`.
- `PhpStrings.PhpIntCast`: models the `(int)` cast of `SERVER_PORT` only for strings that start with decimal digits. Leading whitespace, signs, exponents and overflow are not modelled. The cast only feeds the unreachable `http` port branch.
- `PhpStrings.Dirname`: covers `/`-separated paths only. Windows backslashes, drive letters and the `levels` argument are not modelled.
- The hosting layer that fills `$_SERVER`, `$_GET`, `$_POST` and the raw body is not modelled: those are the constructor's parameters.
