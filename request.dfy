/** The `Request` value of the remote-storage server: server metadata, query
    parameters, form parameters and the raw body of one inbound HTTP request,
    checked once at construction and read through derived accessors. */
module Http {
  import opened Wrappers
  import opened PhpStrings

  /** A PHP array with string keys and string values. */
  type StringMap = map<string, string>

  /** The server metadata keys the web server must always supply, in the
      order the constructor checks them. */
  const RequiredHeaders: seq<string> :=
    ["REQUEST_METHOD", "SERVER_NAME", "SERVER_PORT", "REQUEST_URI", "SCRIPT_NAME"]

  /** An HTTP error with its message and status code. */
  datatype HttpException = HttpException(message: string, code: int)

  /** The error thrown when the web server did not supply `key`. */
  function MissingHeader(key: string): (e: HttpException)
    ensures e.code == 500
  {
    HttpException("missing header \"" + key + "\"", 500)
  }

  /** The message of a missing-header error identifies the missing key. */
  lemma MissingHeaderNamesKey(a: string, b: string)
    requires MissingHeader(a) == MissingHeader(b)
    ensures a == b
  {
    var prefix := "missing header \"";
    var ma, mb := MissingHeader(a).message, MissingHeader(b).message;
    assert |a| == |b|;
    assert a == ma[|prefix|..|prefix| + |a|];
    assert b == mb[|prefix|..|prefix| + |b|];
  }

  /** Every required key is present in `serverData`. */
  predicate HasRequiredHeaders(serverData: StringMap) {
    forall i :: 0 <= i < |RequiredHeaders| ==> RequiredHeaders[i] in serverData
  }

  /** `RequiredHeaders[i]` is the first required key missing from `serverData`. */
  predicate FirstMissingAt(serverData: StringMap, i: int) {
    && 0 <= i < |RequiredHeaders|
    && RequiredHeaders[i] !in serverData
    && forall j :: 0 <= j < i ==> RequiredHeaders[j] in serverData
  }

  /** The query string is everything from the first `?` on; this is the
      part of `uri` before it (all of `uri` when there is no `?`). */
  function WithoutQuery(uri: string): (path: string)
    ensures StartsWith(uri, path)
    ensures forall i :: 0 <= i < |path| ==> path[i] != '?'
    ensures |path| < |uri| ==> uri[|path|] == '?'
  {
    match IndexOf(uri, "?")
    case Some(pos) =>
      assert forall j: nat :: j < pos ==> uri[j] != '?' by {
        forall j: nat | j < pos ensures uri[j] != '?' {
          assert !OccursAt(uri, "?", j);
          assert uri[j..j + 1] == [uri[j]];
        }
      }
      assert uri[pos..pos + 1] == [uri[pos]];
      uri[..pos]
    case None =>
      assert forall j: nat :: j < |uri| ==> uri[j] != '?' by {
        forall j: nat | j < |uri| ensures uri[j] != '?' {
          assert !OccursAt(uri, "?", j);
          assert uri[j..j + 1] == [uri[j]];
        }
      }
      uri
  }

  /** The path before the query string is recovered exactly, whether or
      not a query string follows it. */
  lemma WithoutQueryOf(path: string, query: string)
    requires forall i :: 0 <= i < |path| ==> path[i] != '?'
    requires query == "" || query[0] == '?'
    ensures WithoutQuery(path + query) == path
  {
    var uri := path + query;
    var p := WithoutQuery(uri);
    assert |p| <= |path| by {
      if query != "" {
        assert uri[|path|] == '?';
      }
    }
    assert |path| <= |p| by {
      if |p| < |uri| {
        assert uri[|p|] == '?';
      }
    }
    assert p == uri[..|path|];
  }

  /** A suffix of a query-free path is query-free. */
  lemma SuffixWithoutQuery(path: string, suffix: string)
    requires forall i :: 0 <= i < |path| ==> path[i] != '?'
    requires EndsWith(path, suffix)
    ensures forall i :: 0 <= i < |suffix| ==> suffix[i] != '?'
  {
  }

  /** The part of the query-free request path `path` below the mount
      point: what follows `script` when `path` starts with it, else `path`
      without the characters of `root` except its trailing slash, else
      (root `/`) `path` itself. */
  function PathBelowMount(path: string, script: string, root: string): (pathInfo: string)
    requires root != "" && root[|root| - 1] == '/'
    ensures EndsWith(path, pathInfo)
    ensures StartsWith(path, script) ==> script + pathInfo == path
    ensures !StartsWith(path, script) && root != "/" ==>
      |pathInfo| == if |root| - 1 <= |path| then |path| - (|root| - 1) else 0
    ensures !StartsWith(path, script) && StartsWith(path, root) ==>
      && root[..|root| - 1] + pathInfo == path
      && pathInfo != "" && pathInfo[0] == '/'
    ensures !StartsWith(path, script) && root == "/" ==> pathInfo == path
  {
    if IndexOf(path, script) == Some(0) then Tail(path, |script|)
    else if root != "/" then Tail(path, |root| - 1)
    else path
  }

  /** One inbound request. The four fields are assigned once by
      `NewRequest` and never change; every accessor is a function of them. */
  datatype Request = Request(
    serverData: StringMap,
    getData: StringMap,
    postData: StringMap,
    rawData: Option<string>)
  {
    /** The required server metadata keys are present: what construction
        checks and every accessor relies on. This is `HasRequiredHeaders`
        written out key by key (`ValidIffRequiredHeaders` proves the two
        agree), so that each accessor sees the key it reads. */
    predicate Valid() {
      && "REQUEST_METHOD" in serverData
      && "SERVER_NAME" in serverData
      && "SERVER_PORT" in serverData
      && "REQUEST_URI" in serverData
      && "SCRIPT_NAME" in serverData
    }

    /** Scheme, host and (for plain `http` off port 80) port. The scheme
        read from `REQUEST_SCHEME` is overwritten with `https`, so the port
        suffix is never added and the result depends on `SERVER_NAME` only. */
    function Authority(): (authority: string)
      requires Valid()
      ensures authority == "https://" + serverData["SERVER_NAME"]
    {
      var resolvedScheme :=
        if "REQUEST_SCHEME" !in serverData then "http" else serverData["REQUEST_SCHEME"];
      var requestScheme := "https";
      var serverName := serverData["SERVER_NAME"];
      var serverPort := PhpIntCast(serverData["SERVER_PORT"]);
      var usePort := requestScheme == "http" && serverPort != 80;
      if usePort then requestScheme + "://" + serverName + ":" + DecimalString(serverPort)
      else requestScheme + "://" + serverName
    }

    /** The absolute URI of the request, query string included. */
    function Uri(): (uri: string)
      requires Valid()
      ensures uri == "https://" + serverData["SERVER_NAME"] + serverData["REQUEST_URI"]
      ensures StartsWith(uri, Authority()) && EndsWith(uri, serverData["REQUEST_URI"])
    {
      Authority() + serverData["REQUEST_URI"]
    }

    /** The directory the application is mounted at: the directory of
        `SCRIPT_NAME`, always ending in a slash. */
    function Root(): (root: string)
      requires Valid()
      ensures root != "" && root[|root| - 1] == '/'
      ensures var dir := Dirname(serverData["SCRIPT_NAME"]);
        if dir == "/" || dir == "" then root == "/" else root == dir + "/"
      ensures var script := serverData["SCRIPT_NAME"];
        script != "" && script[0] == '/' ==> root[0] == '/' && StartsWith(script, root)
      ensures var script := serverData["SCRIPT_NAME"];
        script != "" && script[0] != '/' ==> root == "./" || StartsWith(script, root)
    {
      var script := serverData["SCRIPT_NAME"];
      var rootDir := Dirname(script);
      if rootDir != "/" then
        assert rootDir != "" && rootDir != "." ==> script[..|rootDir| + 1] == rootDir + "/";
        rootDir + "/"
      else
        rootDir
    }

    /** The absolute URI of the mount directory. */
    function RootUri(): (rootUri: string)
      requires Valid()
      ensures rootUri == "https://" + serverData["SERVER_NAME"] + Root()
      ensures StartsWith(rootUri, Authority()) && rootUri[|rootUri| - 1] == '/'
    {
      Authority() + Root()
    }

    /** The stored `REQUEST_METHOD`. */
    function RequestMethod(): (requestMethod: string)
      requires Valid()
      ensures requestMethod == serverData["REQUEST_METHOD"]
    {
      serverData["REQUEST_METHOD"]
    }

    /** The stored `SERVER_NAME`. */
    function ServerName(): (serverName: string)
      requires Valid()
      ensures serverName == serverData["SERVER_NAME"]
    {
      serverData["SERVER_NAME"]
    }

    /** The client accepts HTML: an `HTTP_ACCEPT` header mentioning `text/html`. */
    function IsBrowser(): (isBrowser: bool)
      ensures isBrowser <==>
        "HTTP_ACCEPT" in serverData && Contains(serverData["HTTP_ACCEPT"], "text/html")
    {
      if "HTTP_ACCEPT" !in serverData then false
      else IndexOf(serverData["HTTP_ACCEPT"], "text/html") != None
    }

    /** The request path below the mount point, without the query string:
        the path after `SCRIPT_NAME` when the path starts with it, otherwise
        the path with the root directory but its trailing slash removed,
        otherwise (root `/`) the whole path. */
    function PathInfo(): (pathInfo: string)
      requires Valid()
      ensures forall i :: 0 <= i < |pathInfo| ==> pathInfo[i] != '?'
      ensures EndsWith(WithoutQuery(serverData["REQUEST_URI"]), pathInfo)
      ensures var path, script := WithoutQuery(serverData["REQUEST_URI"]), serverData["SCRIPT_NAME"];
        StartsWith(path, script) ==> script + pathInfo == path
      ensures var path, script := WithoutQuery(serverData["REQUEST_URI"]), serverData["SCRIPT_NAME"];
        !StartsWith(path, script) && Root() != "/" ==>
          |pathInfo| == if |Root()| - 1 <= |path| then |path| - (|Root()| - 1) else 0
      ensures var path, script := WithoutQuery(serverData["REQUEST_URI"]), serverData["SCRIPT_NAME"];
        !StartsWith(path, script) && StartsWith(path, Root()) ==>
          && Root()[..|Root()| - 1] + pathInfo == path
          && pathInfo != "" && pathInfo[0] == '/'
      ensures var path, script := WithoutQuery(serverData["REQUEST_URI"]), serverData["SCRIPT_NAME"];
        !StartsWith(path, script) && Root() == "/" ==> pathInfo == path
    {
      var requestUri := WithoutQuery(serverData["REQUEST_URI"]);
      var pathInfo := PathBelowMount(requestUri, serverData["SCRIPT_NAME"], Root());
      SuffixWithoutQuery(requestUri, pathInfo);
      pathInfo
    }

    /** The raw body as given: `None` when there was none (PHP `null`),
        which stays distinct from an empty body `Some("")`. */
    function Body(): (body: Option<string>)
      ensures body == rawData
    {
      rawData
    }
  }

  /** The required keys are present exactly when a request over
      `serverData` is valid. */
  lemma ValidIffRequiredHeaders(serverData: StringMap, getData: StringMap, postData: StringMap,
                                rawData: Option<string>)
    ensures Request(serverData, getData, postData, rawData).Valid() <==> HasRequiredHeaders(serverData)
  {
    if HasRequiredHeaders(serverData) {
      assert RequiredHeaders[0] in serverData && RequiredHeaders[1] in serverData
        && RequiredHeaders[2] in serverData && RequiredHeaders[3] in serverData
        && RequiredHeaders[4] in serverData;
    }
  }

  /** Builds a request, throwing a status-500 error naming the first
      required key missing from `serverData`. On success the four inputs
      are stored unchanged. */
  method NewRequest(serverData: StringMap, getData: StringMap := map[], postData: StringMap := map[],
                    rawData: Option<string> := None)
    returns (res: Result<Request, HttpException>)
    ensures res.Success? <==> HasRequiredHeaders(serverData)
    ensures res.Success? ==>
      && res.value == Request(serverData, getData, postData, rawData)
      && res.value.Valid()
    ensures res.Failure? ==>
      exists i :: FirstMissingAt(serverData, i) && res.error == MissingHeader(RequiredHeaders[i])
  {
    var i := 0;
    while i < |RequiredHeaders|
      invariant 0 <= i <= |RequiredHeaders|
      invariant forall j :: 0 <= j < i ==> RequiredHeaders[j] in serverData
    {
      var key := RequiredHeaders[i];
      if key !in serverData {
        assert FirstMissingAt(serverData, i);
        return Failure(MissingHeader(key));
      }
      i := i + 1;
    }
    ValidIffRequiredHeaders(serverData, getData, postData, rawData);
    return Success(Request(serverData, getData, postData, rawData));
  }

  /** `REQUEST_SCHEME` and `SERVER_PORT` have no effect on the authority. */
  lemma AuthorityIgnoresSchemeAndPort(r: Request, scheme: string, port: string)
    requires r.Valid()
    ensures var r' := r.(serverData := r.serverData["REQUEST_SCHEME" := scheme]["SERVER_PORT" := port]);
      r'.Valid() && r'.Authority() == r.Authority()
    ensures var r' := r.(serverData := r.serverData - {"REQUEST_SCHEME"});
      r'.Valid() && r'.Authority() == r.Authority()
  {
  }

  /** A request under the mount directory has its absolute URI under the
      mount's absolute URI. */
  lemma RootUriPrefixesUri(r: Request)
    requires r.Valid()
    requires StartsWith(r.serverData["REQUEST_URI"], r.Root())
    ensures StartsWith(r.Uri(), r.RootUri())
  {
    var authority := r.Authority();
    assert r.Uri()[..|r.RootUri()|] == authority + r.serverData["REQUEST_URI"][..|r.Root()|];
  }

  /** Path info when the URI contains the script name and a query string. */
  lemma ExampleScriptInUri()
    ensures Request(map["REQUEST_METHOD" := "GET", "SERVER_NAME" := "example.org",
                        "SERVER_PORT" := "443", "REQUEST_URI" := "/app/index.php/foo/bar?x=1",
                        "SCRIPT_NAME" := "/app/index.php"], map[], map[], None).PathInfo()
        == "/foo/bar"
  {
    var r := Request(map["REQUEST_METHOD" := "GET", "SERVER_NAME" := "example.org",
                         "SERVER_PORT" := "443", "REQUEST_URI" := "/app/index.php/foo/bar?x=1",
                         "SCRIPT_NAME" := "/app/index.php"], map[], map[], None);
    var path, script := "/app/index.php/foo/bar", "/app/index.php";
    assert r.serverData["REQUEST_URI"] == path + "?x=1";
    WithoutQueryOf(path, "?x=1");
    assert StartsWith(path, script) by {
      assert path[..|script|] == script;
    }
    var pathInfo := r.PathInfo();
    assert script + pathInfo == path;
    assert pathInfo == path[|script|..];
  }

  /** Path info through the root directory when the script name is not in the URI. */
  lemma ExampleRootFallback()
    ensures Request(map["REQUEST_METHOD" := "GET", "SERVER_NAME" := "example.org",
                        "SERVER_PORT" := "443", "REQUEST_URI" := "/app/foo/bar",
                        "SCRIPT_NAME" := "/app/index.php"], map[], map[], None).PathInfo()
        == "/foo/bar"
  {
    var path := "/app/foo/bar";
    assert path == path + "";
    WithoutQueryOf(path, "");
    assert "/app/index.php" == "/app" + "/" + "index.php" + "";
    DirnameOfEntry("/app", "/", "index.php", "");
  }

  /** A script `dir/name` inside a directory is mounted at `dir/`; a script
      directly under the web root is mounted at `/`. */
  lemma RootOfScriptInDirectory(r: Request, dir: string, name: string)
    requires r.Valid()
    requires dir == "" || (dir[0] == '/' && dir[|dir| - 1] != '/')
    requires name != "" && NoSlash(name)
    requires r.serverData["SCRIPT_NAME"] == dir + "/" + name
    ensures r.Root() == dir + "/"
  {
    assert dir + "/" + name == dir + "/" + name + "";
    DirnameOfEntry(dir, "/", name, "");
  }

  /** An `Accept` header listing HTML marks a browser; a JSON-only one or
      none at all does not. */
  lemma ExampleBrowser(r: Request)
    ensures r.(serverData := r.serverData["HTTP_ACCEPT" := "text/html,application/xhtml+xml"]).IsBrowser()
    ensures !r.(serverData := r.serverData["HTTP_ACCEPT" := "application/json"]).IsBrowser()
    ensures !r.(serverData := r.serverData - {"HTTP_ACCEPT"}).IsBrowser()
  {
    assert OccursAt("text/html,application/xhtml+xml", "text/html", 0);
    var json := "application/json";
    forall i: nat | OccursAt(json, "text/html", i) ensures false {
      assert json[i] == 't' && json[i + 1] == 'e' by {
        assert json[i..i + 9][0] == 't' && json[i..i + 9][1] == 'e';
      }
    }
  }
}
