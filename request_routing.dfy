/** RequestInfoFactory: how a request (method, path, query) is turned into a RequestInfo
    descriptor (database and data identifiers, handler or controller action, controller class),
    and the process-wide memo table that stores one descriptor per distinct request. */
module RequestRouting {
  import opened Wrappers
  import opened PhpStrings

  /** Query parameters in their order of arrival. */
  type Query = seq<(string, string)>

  /** The parts of React's request object that the factory reads, plus its headers, which it
      never reads but which make two requests with the same method, path and query distinct. */
  datatype Request = Request(httpMethod: string, path: string, query: Query, headers: seq<(string, string)>)

  /** What the memo table is keyed by: sha1 of method, path and JSON-encoded query. */
  datatype RequestKey = RequestKey(httpMethod: string, path: string, query: Query)

  function KeyOf(request: Request): RequestKey {
    RequestKey(request.httpMethod, request.path, request.query)
  }

  /** The routing descriptor, fields in the order of RequestInfo's constructor. None stands
      for NULL (identifiers, controller class, body) or FALSE (action). */
  datatype RequestInfo = RequestInfo(
    request: Request,
    dataIdentifier: Option<string>,
    databaseIdentifier: Option<string>,
    httpMethod: string,
    action: Option<string>,
    controllerClass: Option<string>,
    body: Option<string>)

  /** The code the factory cannot see: which classes exist (class_exists), which methods a class
      or interface declares (method_exists), and GeneralUtility::underscoreToCamelCase. */
  datatype Reflection = Reflection(
    classes: set<string>,
    methods: set<(string, string)>,
    underscoreToCamelCase: string -> string)

  /** InvalidRequestActionException. */
  datatype RoutingError = InvalidRequestAction(code: int)

  const InvalidActionCode := 1420547305

  /** A controller class and the action to call on it. */
  datatype ControllerRoute = ControllerRoute(controllerClass: string, action: string)

  const DefaultHandlerClass := "Cundd\\PersistentObjectStore\\Server\\Handler\\HandlerInterface"
  const HandlerNamespace := "Cundd\\PersistentObjectStore\\Server\\Handler\\"
  const ServerActions := {"shutdown", "restart"}

  // ---------------------------------------------------------------------------------------
  // Path handling shared by all lookups

  /** `if ($path[0] === '/') $path = substr($path, 1);` */
  function WithoutLeadingSlash(path: string): string {
    if StartsWith(path, '/') then path[1..] else path
  }

  /** The path carries a special information identifier: after an optional `/` comes `_`. */
  predicate IsDirectivePath(path: string) {
    StartsWith(WithoutLeadingSlash(path), '_')
  }

  /** The non-empty, non-"0" `/`-separated pieces of the path, in order. */
  function PathSegments(path: string): (segments: seq<string>)
    ensures forall i :: 0 <= i < |segments| ==> Truthy(segments[i]) && '/' !in segments[i]
  {
    FilterTruthy(Split(path, '/'))
  }

  /** The action method name for an HTTP method and a name:
      underscoreToCamelCase(strtolower(method) . '_' . name) . 'Action'. */
  function ActionName(env: Reflection, httpMethod: string, name: string): (actionName: string)
    ensures exists stem :: actionName == stem + "Action"
  {
    var stem := env.underscoreToCamelCase(ToLower(httpMethod) + "_" + name);
    stem + "Action"
  }

  // ---------------------------------------------------------------------------------------
  // getHandlerClassForRequest

  /** The directive name of a directive path: its first piece without the `_`. */
  function HandlerIdentifier(path: string): string {
    Suffix(FirstPiece(WithoutLeadingSlash(path), '/'), 1)
  }

  /** The application class named by a handler identifier: each `_`-separated word capitalised,
      the words joined by namespace separators, then `\Application`. */
  function ApplicationClassName(handlerIdentifier: string): (className: string)
    ensures |className| == |handlerIdentifier| + 12
    ensures className[|handlerIdentifier|..] == "\\Application"
    ensures forall i :: 0 <= i < |handlerIdentifier| ==>
      className[i] == if handlerIdentifier[i] == '_' || handlerIdentifier[i] == ' ' then '\\'
                      else if i == 0 || handlerIdentifier[i - 1] == '_' || IsWordDelimiter(handlerIdentifier[i - 1])
                      then UpperChar(handlerIdentifier[i])
                      else handlerIdentifier[i]
  {
    WordsToNamespace(handlerIdentifier);
    Replace(Ucwords(Replace(handlerIdentifier, '_', ' ')), ' ', '\\') + "\\Application"
  }

  /** `_` and spaces to words, ucwords, spaces to namespace separators, character by character. */
  lemma WordsToNamespace(id: string)
    ensures var n := Replace(Ucwords(Replace(id, '_', ' ')), ' ', '\\');
      && |n| == |id|
      && forall i :: 0 <= i < |id| ==>
           n[i] == if id[i] == '_' || id[i] == ' ' then '\\'
                   else if i == 0 || id[i - 1] == '_' || IsWordDelimiter(id[i - 1]) then UpperChar(id[i])
                   else id[i]
  {
    var t := Replace(id, '_', ' ');
    var u := Ucwords(t);
    var n := Replace(u, ' ', '\\');
    UcwordsCharwise(t, true);
    forall i | 0 <= i < |id|
      ensures n[i] == if id[i] == '_' || id[i] == ' ' then '\\'
                      else if i == 0 || id[i - 1] == '_' || IsWordDelimiter(id[i - 1]) then UpperChar(id[i])
                      else id[i]
    {
      assert t[i] == if id[i] == '_' then ' ' else id[i];
      assert u[i] == if (if i == 0 then true else IsWordDelimiter(t[i - 1])) then UpperChar(t[i]) else t[i];
      if i > 0 {
        assert t[i - 1] == if id[i - 1] == '_' then ' ' else id[i - 1];
      }
    }
  }

  /** A single word `foo` names the application class `Foo\Application`. */
  lemma ApplicationClassNameOfWord(w: string)
    requires PlainWord(w)
    ensures ApplicationClassName(w) == Ucfirst(w) + "\\Application"
  {
    assert Replace(w, '_', ' ') == w;
    UcwordsOfWord(w, true);
    UcfirstKeepsNonLetters(w, ' ');
    assert Replace(Ucfirst(w), ' ', '\\') == Ucfirst(w);
  }

  /** `foo_bar` names the application class `Foo\Bar\Application`. */
  lemma ApplicationClassNameOfTwoWords(a: string, b: string)
    requires PlainWord(a) && PlainWord(b)
    ensures ApplicationClassName(a + "_" + b) == Ucfirst(a) + "\\" + Ucfirst(b) + "\\Application"
  {
    var id := a + "_" + b;
    assert Replace(id, '_', ' ') == a + (" " + b);
    UcfirstKeepsWordDelimiters(a);
    UcwordsOfWord(a, true);
    UcwordsAppend(a, " " + b, true);
    UcwordsFlagAfterLast(a, true);
    UcwordsStep(" " + b, UcwordsFlagAfter(a, true));
    assert (" " + b)[1..] == b;
    UcwordsOfWord(b, true);
    assert Ucwords(a + (" " + b)) == Ucfirst(a) + " " + Ucfirst(b);
    UcfirstKeepsNonLetters(a, ' ');
    UcfirstKeepsNonLetters(b, ' ');
    SpaceToBackslash(Ucfirst(a), Ucfirst(b));
  }

  /** `foo` names the handler class `...\Server\Handler\FooHandler`. */
  function HandlerClassName(handlerIdentifier: string): (className: string)
    ensures |className| == |HandlerNamespace| + |handlerIdentifier| + 7
    ensures className[..|HandlerNamespace|] == HandlerNamespace && className[|className| - 7..] == "Handler"
    ensures forall i :: 0 <= i < |handlerIdentifier| ==>
      className[|HandlerNamespace| + i] == if i == 0 then UpperChar(handlerIdentifier[0]) else handlerIdentifier[i]
  {
    HandlerNamespace + Ucfirst(handlerIdentifier) + "Handler"
  }

  /** The class whose action methods a request may call: an existing application or handler
      class named by the directive, otherwise the handler interface. */
  function HandlerClassForRequest(env: Reflection, request: Request): (handlerClass: string)
    ensures handlerClass == DefaultHandlerClass || handlerClass in env.classes
    ensures !IsDirectivePath(request.path) ==> handlerClass == DefaultHandlerClass
  {
    var path := request.path;
    if !Truthy(path) then DefaultHandlerClass
    else
      var p := WithoutLeadingSlash(path);
      if !StartsWith(p, '_') then DefaultHandlerClass
      else
        var handlerIdentifier := Suffix(FirstPiece(p, '/'), 1);
        var applicationName := ApplicationClassName(handlerIdentifier);
        if applicationName in env.classes then applicationName
        else
          var handlerName := HandlerClassName(handlerIdentifier);
          if handlerName in env.classes then handlerName
          else DefaultHandlerClass
  }

  /** An application class beats a handler class, which beats the interface. */
  lemma HandlerClassPrecedence(env: Reflection, request: Request)
    requires IsDirectivePath(request.path)
    ensures ApplicationClassName(HandlerIdentifier(request.path)) in env.classes ==>
      HandlerClassForRequest(env, request) == ApplicationClassName(HandlerIdentifier(request.path))
    ensures (ApplicationClassName(HandlerIdentifier(request.path)) !in env.classes
             && HandlerClassName(HandlerIdentifier(request.path)) in env.classes) ==>
      HandlerClassForRequest(env, request) == HandlerClassName(HandlerIdentifier(request.path))
    ensures (ApplicationClassName(HandlerIdentifier(request.path)) !in env.classes
             && HandlerClassName(HandlerIdentifier(request.path)) !in env.classes) ==>
      HandlerClassForRequest(env, request) == DefaultHandlerClass
  {
  }

  // ---------------------------------------------------------------------------------------
  // getActionForRequestAndClass, getHandlerActionForRequest

  /** A path piece that is a directive `_name` whose action the class declares. */
  predicate OffersAction(env: Reflection, httpMethod: string, cls: string, segment: string) {
    Truthy(segment) && StartsWith(segment, '_') && (cls, ActionName(env, httpMethod, segment[1..])) in env.methods
  }

  /** The action of the leftmost directive piece that `cls` declares, if any. */
  function FirstOfferedAction(env: Reflection, httpMethod: string, cls: string, parts: seq<string>): (action: Option<string>)
    ensures action.None? <==> forall i :: 0 <= i < |parts| ==> !OffersAction(env, httpMethod, cls, parts[i])
    ensures action.Some? ==>
      exists i :: 0 <= i < |parts| && OffersAction(env, httpMethod, cls, parts[i])
        && action.value == ActionName(env, httpMethod, parts[i][1..])
        && forall j :: 0 <= j < i ==> !OffersAction(env, httpMethod, cls, parts[j])
  {
    if parts == [] then None
    else if OffersAction(env, httpMethod, cls, parts[0]) then Some(ActionName(env, httpMethod, parts[0][1..]))
    else
      var rest := FirstOfferedAction(env, httpMethod, cls, parts[1..]);
      assert forall i :: 1 <= i < |parts| ==> parts[i] == parts[1..][i - 1];
      rest
  }

  /** One step of the scan: the first piece decides, or the scan goes on with the rest. */
  lemma FirstOfferedActionStep(env: Reflection, httpMethod: string, cls: string, parts: seq<string>)
    requires parts != []
    ensures FirstOfferedAction(env, httpMethod, cls, parts)
         == if OffersAction(env, httpMethod, cls, parts[0]) then Some(ActionName(env, httpMethod, parts[0][1..]))
            else FirstOfferedAction(env, httpMethod, cls, parts[1..])
  {
  }

  /** What getActionForRequestAndClass returns: FALSE for an empty path, otherwise the first
      action found among the raw pieces of the path. */
  function ActionForRequestAndClass(env: Reflection, request: Request, cls: string): (action: Option<string>)
    ensures !Truthy(request.path) ==> action.None?
    ensures action.Some? ==> (cls, action.value) in env.methods
  {
    if !Truthy(request.path) then None
    else FirstOfferedAction(env, request.httpMethod, cls, Split(WithoutLeadingSlash(request.path), '/'))
  }

  /** Scans the path pieces left to right and returns the first action `cls` declares. */
  method GetActionForRequestAndClass(env: Reflection, request: Request, cls: string) returns (action: Option<string>)
    ensures action == ActionForRequestAndClass(env, request, cls)
  {
    var path := request.path;
    var httpMethod := request.httpMethod;
    if !Truthy(path) {
      return None;
    }
    if path[0] == '/' {
      path := path[1..];
    }
    assert path == WithoutLeadingSlash(request.path);
    var pathParts := Split(path, '/');
    var i := 0;
    assert pathParts[i..] == pathParts;
    while i < |pathParts|
      invariant 0 <= i <= |pathParts|
      invariant FirstOfferedAction(env, httpMethod, cls, pathParts[i..]) == ActionForRequestAndClass(env, request, cls)
    {
      var currentPathPart := pathParts[i];
      FirstOfferedActionStep(env, httpMethod, cls, pathParts[i..]);
      assert pathParts[i..][0] == currentPathPart && pathParts[i..][1..] == pathParts[i + 1..];
      if Truthy(currentPathPart) && currentPathPart[0] == '_' {
        var handlerAction := ActionName(env, httpMethod, currentPathPart[1..]);
        if (cls, handlerAction) in env.methods {
          return Some(handlerAction);
        }
      }
      assert !OffersAction(env, httpMethod, cls, currentPathPart);
      assert FirstOfferedAction(env, httpMethod, cls, pathParts[i..]) == FirstOfferedAction(env, httpMethod, cls, pathParts[i + 1..]);
      i := i + 1;
    }
    return None;
  }

  /** An action is only ever found in a path that holds a `_`. */
  lemma ActionNeedsDirective(env: Reflection, request: Request, cls: string)
    ensures ActionForRequestAndClass(env, request, cls).Some? ==> '_' in request.path
  {
    if ActionForRequestAndClass(env, request, cls).Some? {
      var parts := Split(WithoutLeadingSlash(request.path), '/');
      var i :| 0 <= i < |parts| && OffersAction(env, request.httpMethod, cls, parts[i]);
      JoinSplit(WithoutLeadingSlash(request.path), '/');
      PieceCharInJoin(parts, '/', i);
    }
  }

  /** What getHandlerActionForRequest returns: an action the chosen handler class declares,
      named by a `_` piece of the path. */
  function HandlerAction(env: Reflection, request: Request): (action: Option<string>)
    ensures action.Some? ==> (HandlerClassForRequest(env, request), action.value) in env.methods
    ensures action.Some? ==> '_' in request.path
  {
    ActionNeedsDirective(env, request, HandlerClassForRequest(env, request));
    ActionForRequestAndClass(env, request, HandlerClassForRequest(env, request))
  }

  /** The action of the handler class chosen for the request. */
  method GetHandlerActionForRequest(env: Reflection, request: Request) returns (action: Option<string>)
    ensures action == HandlerAction(env, request)
  {
    action := GetActionForRequestAndClass(env, request, HandlerClassForRequest(env, request));
  }

  /** The first character of a non-empty piece occurs in the joined string. */
  lemma {:induction false} PieceCharInJoin(parts: seq<string>, sep: char, i: nat)
    requires i < |parts| && |parts[i]| > 0
    ensures parts[i][0] in Join(parts, sep)
  {
    if i > 0 {
      PieceCharInJoin(parts[1..], sep, i - 1);
    }
  }

  // ---------------------------------------------------------------------------------------
  // getControllerAndActionForRequest

  /** The path has the controller shape `_<controller>/<action>...` with a `-` somewhere. */
  predicate IsControllerPath(path: string) {
    IsDirectivePath(path) && '-' in WithoutLeadingSlash(path) && '/' in WithoutLeadingSlash(path)[1..]
  }

  /** The raw pieces after the `_`; the first two name the controller and the action. */
  function ControllerPathParts(path: string): (parts: seq<string>)
    requires IsControllerPath(path)
    ensures |parts| >= 2
  {
    Split(WithoutLeadingSlash(path)[1..], '/')
  }

  /** The controller class named by a controller identifier: `foo-bar` gives
      `Foo\Controller\BarController`. Without a `-` strrpos gives FALSE and FALSE + 1 is 1. */
  function ControllerClassName(controllerIdentifier: string): (className: string)
    ensures |className| >= 21 && className[|className| - 10..] == "Controller"
  {
    var camel := RemoveChar(Ucwords(Replace(controllerIdentifier, '_', ' ')), ' ');
    var cut := match LastIndexOf(camel, '-') case Some(i) => i + 1 case None => 1;
    var namespaced := Replace(Ucwords(Replace(camel, '-', ' ')), ' ', '\\');
    Prefix(namespaced, cut) + "Controller\\" + Ucfirst(Suffix(namespaced, cut)) + "Controller"
  }

  /** The controller class and action for a controller path whose class exists; FALSE
      (None) otherwise. A non-alphanumeric action name is an error, but only once the class is
      known to exist; whether the action method exists is not checked. */
  function ControllerAndActionForRequest(env: Reflection, request: Request): (route: Result<Option<ControllerRoute>, RoutingError>)
    ensures !IsControllerPath(request.path) ==> route == Success(None)
    ensures route.Success? && route.value.Some? <==>
      IsControllerPath(request.path)
        && ControllerClassName(ControllerPathParts(request.path)[0]) in env.classes
        && IsAlnum(ActionName(env, request.httpMethod, ControllerPathParts(request.path)[1]))
    ensures route.Success? && route.value.Some? ==>
      route.value.value == ControllerRoute(
        ControllerClassName(ControllerPathParts(request.path)[0]),
        ActionName(env, request.httpMethod, ControllerPathParts(request.path)[1]))
    ensures route.Failure? <==>
      IsControllerPath(request.path)
        && ControllerClassName(ControllerPathParts(request.path)[0]) in env.classes
        && !IsAlnum(ActionName(env, request.httpMethod, ControllerPathParts(request.path)[1]))
    ensures route.Failure? ==> route.error == InvalidRequestAction(InvalidActionCode)
  {
    var path := request.path;
    if !Truthy(path) then Success(None)
    else
      var p := WithoutLeadingSlash(path);
      if !StartsWith(p, '_') then Success(None)
      else if '-' !in p then Success(None)
      else
        var pathParts := Split(p[1..], '/');
        if |pathParts| < 2 then Success(None)
        else
          var controllerClassName := ControllerClassName(pathParts[0]);
          if controllerClassName !in env.classes then Success(None)
          else
            var actionName := ActionName(env, request.httpMethod, pathParts[1]);
            if !IsAlnum(actionName) then Failure(InvalidRequestAction(InvalidActionCode))
            else Success(Some(ControllerRoute(controllerClassName, actionName)))
  }

  /** A word as the class-name convention sees it: no `_`, no `-`, nothing ucwords splits at. */
  predicate PlainWord(w: string) {
    NoWordDelimiter(w) && '_' !in w && '-' !in w
  }

  /** `<ns>-<name>` names the class `Ns\Controller\NameController`. */
  lemma ControllerClassNameOfDashedIdentifier(ns: string, name: string)
    requires PlainWord(ns) && PlainWord(name)
    ensures ControllerClassName(ns + "-" + name) == Ucfirst(ns) + "\\Controller\\" + Ucfirst(name) + "Controller"
  {
    var u := Ucfirst(ns);
    var n := Ucfirst(name);
    var id := ns + "-" + name;
    var camel := u + "-" + name;
    CamelCasedDashedIdentifier(ns, name);
    UcfirstKeepsNonLetters(ns, '-');
    LastDashOfDashedIdentifier(u, name);
    NamespacedDashedIdentifier(ns, name);
    var namespaced := u + "\\" + n;
    assert RemoveChar(Ucwords(Replace(id, '_', ' ')), ' ') == camel;
    assert Replace(Ucwords(Replace(camel, '-', ' ')), ' ', '\\') == namespaced;
    assert ControllerClassName(id)
        == Prefix(namespaced, |u| + 1) + "Controller\\" + Ucfirst(Suffix(namespaced, |u| + 1)) + "Controller";
    UcfirstIdempotent(name);
    ClassNameAroundBackslash(u, n);
  }

  /** A controller identifier without `-` (the path's `-` lies elsewhere): strrpos gives FALSE,
      FALSE + 1 is 1, and the class name is cut after its first character, so `foo` names
      `FController\OoController`. */
  lemma ControllerClassNameWithoutDash(w: string)
    requires PlainWord(w) && |w| > 0
    ensures ControllerClassName(w) == [UpperChar(w[0])] + "Controller\\" + Ucfirst(w[1..]) + "Controller"
  {
    var u := Ucfirst(w);
    assert Replace(w, '_', ' ') == w;
    UcwordsOfWord(w, true);
    UcfirstKeepsNonLetters(w, ' ');
    RemoveAbsentChar(u, ' ');
    UcfirstKeepsNonLetters(w, '-');
    assert Replace(u, '-', ' ') == u;
    UcfirstKeepsWordDelimiters(w);
    UcwordsOfWord(u, true);
    UcfirstIdempotent(w);
    assert Replace(u, ' ', '\\') == u;
    assert Prefix(u, 1) == [UpperChar(w[0])];
    assert Suffix(u, 1) == w[1..];
  }

  /** The namespace a `-`-separated identifier names: every `-` becomes a namespace separator
      and the first character of every part is upper-cased. */
  function DashedNamespace(id: string): string {
    seq(|id|, i requires 0 <= i < |id| =>
      if id[i] == '-' then '\\' else if i == 0 || id[i - 1] == '-' then UpperChar(id[i]) else id[i])
  }

  /** The general rule for an identifier whose last `-` is at `k` (no `_`, no delimiter): the
      parts before it form the namespace, the part after it names the class. */
  lemma ControllerClassNameOfLastDash(id: string, k: nat)
    requires NoWordDelimiter(id) && '_' !in id
    requires k < |id| && id[k] == '-' && '-' !in id[k + 1..]
    ensures ControllerClassName(id)
         == DashedNamespace(id[..k]) + "\\Controller\\" + Ucfirst(id[k + 1..]) + "Controller"
  {
    CamelCasedWord(id);
    LastDashOfCamelCased(id, k);
    NamespaceOfCamelCased(id);
    ControllerClassNameSteps(id, Ucfirst(id), k + 1, DashedNamespace(id));
    CutDashedNamespace(id, k);
    UcfirstIdempotent(id[k + 1..]);
    ControllerNamespaceSeparator(DashedNamespace(id[..k]));
  }

  /** The separator before the `Controller` namespace, written in one piece or two. */
  lemma ControllerNamespaceSeparator(namespace: string)
    ensures namespace + "\\" + "Controller\\" == namespace + "\\Controller\\"
  {
    assert "\\" + "Controller\\" == "\\Controller\\";
  }

  /** The construction of the controller class name, given its intermediate results: the
      camel-cased identifier, the cut after its last `-`, and the namespaced identifier. */
  lemma ControllerClassNameSteps(id: string, camel: string, cut: nat, namespaced: string)
    requires RemoveChar(Ucwords(Replace(id, '_', ' ')), ' ') == camel
    requires LastIndexOf(camel, '-') == Some(cut - 1)
    requires Replace(Ucwords(Replace(camel, '-', ' ')), ' ', '\\') == namespaced
    ensures ControllerClassName(id)
         == Prefix(namespaced, cut) + "Controller\\" + Ucfirst(Suffix(namespaced, cut)) + "Controller"
  {
  }

  /** First step for an identifier without `_` or delimiter: only its first character changes. */
  lemma CamelCasedWord(id: string)
    requires NoWordDelimiter(id) && '_' !in id
    ensures RemoveChar(Ucwords(Replace(id, '_', ' ')), ' ') == Ucfirst(id)
  {
    assert Replace(id, '_', ' ') == id;
    UcwordsOfWord(id, true);
    UcfirstKeepsNonLetters(id, ' ');
    RemoveAbsentChar(Ucfirst(id), ' ');
  }

  /** strrpos finds the last `-` where the identifier has it. */
  lemma LastDashOfCamelCased(id: string, k: nat)
    requires k < |id| && id[k] == '-' && '-' !in id[k + 1..]
    ensures LastIndexOf(Ucfirst(id), '-') == Some(k)
  {
  }

  /** Second step, character by character: `-` to words, ucwords, spaces to separators. */
  lemma NamespaceOfCamelCased(id: string)
    requires NoWordDelimiter(id)
    ensures Replace(Ucwords(Replace(Ucfirst(id), '-', ' ')), ' ', '\\') == DashedNamespace(id)
  {
    var t := Replace(Ucfirst(id), '-', ' ');
    var u := Ucwords(t);
    var n := Replace(u, ' ', '\\');
    UcwordsCharwise(t, true);
    forall i | 0 <= i < |id|
      ensures n[i] == DashedNamespace(id)[i]
    {
      assert t[i] == if id[i] == '-' then ' ' else if i == 0 then UpperChar(id[i]) else id[i];
      assert u[i] == if (if i == 0 then true else IsWordDelimiter(t[i - 1])) then UpperChar(t[i]) else t[i];
      if i > 0 {
        assert t[i - 1] == if id[i - 1] == '-' then ' ' else if i - 1 == 0 then UpperChar(id[i - 1]) else id[i - 1];
      }
    }
  }

  /** Cutting the namespace after the last separator: the parts before it, and the last part. */
  lemma CutDashedNamespace(id: string, k: nat)
    requires k < |id| && id[k] == '-' && '-' !in id[k + 1..]
    ensures Prefix(DashedNamespace(id), k + 1) == DashedNamespace(id[..k]) + "\\"
    ensures Suffix(DashedNamespace(id), k + 1) == Ucfirst(id[k + 1..])
  {
    var n := DashedNamespace(id);
    var last := id[k + 1..];
    forall i | 0 <= i < k
      ensures n[i] == DashedNamespace(id[..k])[i]
    {
    }
    assert n[..k + 1] == DashedNamespace(id[..k]) + "\\";
    forall i | k + 1 <= i < |id|
      ensures n[i] == Ucfirst(last)[i - k - 1]
    {
      assert id[i] == last[i - k - 1];
      if i > k + 1 {
        assert id[i - 1] == last[i - k - 2];
      }
    }
    assert n[k + 1..] == Ucfirst(last);
  }

  /** `a-b-c` of plain words names the class `A\B\Controller\CController`. */
  lemma ControllerClassNameOfThreeParts(a: string, b: string, c: string)
    requires PlainWord(a) && PlainWord(b) && PlainWord(c)
    ensures ControllerClassName(a + "-" + b + "-" + c)
         == Ucfirst(a) + "\\" + Ucfirst(b) + "\\Controller\\" + Ucfirst(c) + "Controller"
  {
    var id := a + "-" + b + "-" + c;
    var k := |a| + 1 + |b|;
    assert id[..k] == a + "-" + b && id[k + 1..] == c;
    assert NoWordDelimiter(id) by {
      forall i | 0 <= i < |id|
        ensures !IsWordDelimiter(id[i])
      {
        if i < |a| { assert id[i] == a[i]; }
        else if |a| < i < k { assert id[i] == b[i - |a| - 1]; }
        else if i > k { assert id[i] == c[i - k - 1]; }
      }
    }
    ControllerClassNameOfLastDash(id, k);
    DashedNamespaceOfTwoWords(a, b);
  }

  /** The namespace of `a-b` for plain words is `A\B`. */
  lemma DashedNamespaceOfTwoWords(a: string, b: string)
    requires PlainWord(a) && PlainWord(b)
    ensures DashedNamespace(a + "-" + b) == Ucfirst(a) + "\\" + Ucfirst(b)
  {
    var id := a + "-" + b;
    var n := DashedNamespace(id);
    var expected := Ucfirst(a) + "\\" + Ucfirst(b);
    forall i | 0 <= i < |id|
      ensures n[i] == expected[i]
    {
      if i < |a| {
        assert id[i] == a[i];
        if i > 0 { assert id[i - 1] == a[i - 1]; }
      } else if i > |a| {
        assert id[i] == b[i - |a| - 1];
        if i > |a| + 1 { assert id[i - 1] == b[i - |a| - 2]; }
      }
    }
  }

  /** Last step: cutting `<u>\<n>` after the backslash and inserting the `Controller\` namespace. */
  lemma ClassNameAroundBackslash(u: string, n: string)
    requires Ucfirst(n) == n
    ensures Prefix(u + "\\" + n, |u| + 1) + "Controller\\" + Ucfirst(Suffix(u + "\\" + n, |u| + 1)) + "Controller"
         == u + "\\Controller\\" + n + "Controller"
  {
    assert Prefix(u + "\\" + n, |u| + 1) == u + "\\";
    assert Suffix(u + "\\" + n, |u| + 1) == n;
  }

  /** First step of the class-name construction: `_` to words, ucwords, spaces removed. */
  lemma CamelCasedDashedIdentifier(ns: string, name: string)
    requires PlainWord(ns) && PlainWord(name)
    ensures RemoveChar(Ucwords(Replace(ns + "-" + name, '_', ' ')), ' ') == Ucfirst(ns) + "-" + name
  {
    var id := ns + "-" + name;
    assert Replace(id, '_', ' ') == id;
    assert NoWordDelimiter(id);
    UcwordsOfWord(id, true);
    assert Ucfirst(id) == Ucfirst(ns) + "-" + name;
    UcfirstKeepsNonLetters(ns, ' ');
    RemoveAbsentChar(Ucfirst(ns) + "-" + name, ' ');
  }

  /** strrpos finds the one `-` of `<u>-<name>`. */
  lemma LastDashOfDashedIdentifier(u: string, name: string)
    requires '-' !in u && '-' !in name
    ensures LastIndexOf(u + "-" + name, '-') == Some(|u|)
  {
  }

  /** Second step: `-` to words, ucwords, spaces to backslashes. */
  lemma NamespacedDashedIdentifier(ns: string, name: string)
    requires PlainWord(ns) && PlainWord(name)
    ensures Replace(Ucwords(Replace(Ucfirst(ns) + "-" + name, '-', ' ')), ' ', '\\')
         == Ucfirst(ns) + "\\" + Ucfirst(name)
  {
    var u := Ucfirst(ns);
    UcfirstKeepsNonLetters(ns, '-');
    DashToSpace(u, name);
    UcfirstKeepsWordDelimiters(ns);
    UcfirstIdempotent(ns);
    UcwordsAroundSpace(u, name);
    UcfirstKeepsNonLetters(ns, ' ');
    UcfirstKeepsNonLetters(name, ' ');
    SpaceToBackslash(u, Ucfirst(name));
  }

  /** `str_replace('-', ' ', ...)` on `<u>-<name>`. */
  lemma DashToSpace(u: string, name: string)
    requires '-' !in u && '-' !in name
    ensures Replace(u + "-" + name, '-', ' ') == u + (" " + name)
  {
  }

  /** ucwords on `<u> <name>` with `u` already capitalised. */
  lemma UcwordsAroundSpace(u: string, name: string)
    requires NoWordDelimiter(u) && NoWordDelimiter(name) && Ucfirst(u) == u
    ensures Ucwords(u + (" " + name)) == u + " " + Ucfirst(name)
  {
    UcwordsAppend(u, " " + name, true);
    UcwordsOfWord(u, true);
    assert (" " + name)[0] == ' ' && (" " + name)[1..] == name;
    UcwordsOfWord(name, true);
    assert UcwordsFrom(" " + name, true) == " " + Ucfirst(name);
    assert UcwordsFrom(" " + name, false) == " " + Ucfirst(name);
  }

  /** `str_replace(' ', '\\', ...)` on `<u> <n>`. */
  lemma SpaceToBackslash(u: string, n: string)
    requires ' ' !in u && ' ' !in n
    ensures Replace(u + " " + n, ' ', '\\') == u + "\\" + n
  {
  }

  /** str_replace of a character that does not occur changes nothing. */
  lemma {:induction false} RemoveAbsentChar(s: string, c: char)
    requires c !in s
    ensures RemoveChar(s, c) == s
  {
    if s != [] {
      RemoveAbsentChar(s[1..], c);
      assert [s[0]] + s[1..] == s;
    }
  }

  // ---------------------------------------------------------------------------------------
  // buildRequestInfoFromRequest, as a function of the request

  /** An identifier that starts with `_` is reserved for directives and reads as "". */
  function NormaliseIdentifier(identifier: Option<string>): (normalised: Option<string>)
    ensures normalised.None? <==> identifier.None?
    ensures normalised.Some? ==> !StartsWith(normalised.value, '_')
    ensures identifier.Some? && StartsWith(identifier.value, '_') ==> normalised == Some("")
    ensures identifier.Some? && !StartsWith(identifier.value, '_') ==> normalised == identifier
  {
    if identifier.Some? && Truthy(identifier.value) && identifier.value[0] == '_' then Some("") else identifier
  }

  /** `isset($parts[i]) ? $parts[i] : null`. */
  function SegmentAt(parts: seq<string>, i: nat): Option<string> {
    if i < |parts| then Some(parts[i]) else None
  }

  /** The descriptor buildRequestInfoFromRequest computes on a miss, or the exception it throws. */
  function Resolve(env: Reflection, request: Request): (r: Result<RequestInfo, RoutingError>)
    ensures r.Success? ==> r.value.request == request && r.value.httpMethod == request.httpMethod && r.value.body == None
    ensures r.Success? && r.value.controllerClass.Some? ==>
      r.value.controllerClass.value in env.classes && r.value.action.Some? && IsAlnum(r.value.action.value)
    ensures r.Success? && r.value.controllerClass.None? && r.value.action.Some? ==>
      (HandlerClassForRequest(env, request), r.value.action.value) in env.methods
  {
    var parts := PathSegments(request.path);
    var dataIdentifier := NormaliseIdentifier(SegmentAt(parts, 1));
    var databaseIdentifier := NormaliseIdentifier(SegmentAt(parts, 0));
    match ControllerAndActionForRequest(env, request)
    case Failure(e) => Failure(e)
    case Success(None) =>
      Success(RequestInfo(request, dataIdentifier, databaseIdentifier, request.httpMethod, HandlerAction(env, request), None, None))
    case Success(Some(route)) =>
      Success(RequestInfo(request, SegmentAt(parts, 3), SegmentAt(parts, 2), request.httpMethod,
                          Some(route.action), Some(route.controllerClass), None))
  }

  /** The default route: the identifiers are the first two segments, "" for a `_` segment,
      NULL when missing; the action is the handler action and there is no controller. */
  lemma ResolveDefaultRoute(env: Reflection, request: Request)
    requires ControllerAndActionForRequest(env, request) == Success(None)
    ensures var info := Resolve(env, request).value; var parts := PathSegments(request.path);
      && Resolve(env, request).Success?
      && info.controllerClass == None
      && info.action == HandlerAction(env, request)
      && (info.databaseIdentifier.Some? <==> |parts| >= 1)
      && (info.dataIdentifier.Some? <==> |parts| >= 2)
      && (info.databaseIdentifier.Some? ==>
            if parts[0][0] == '_' then info.databaseIdentifier.value == "" else info.databaseIdentifier.value == parts[0])
      && (info.dataIdentifier.Some? ==>
            if parts[1][0] == '_' then info.dataIdentifier.value == "" else info.dataIdentifier.value == parts[1])
  {
  }

  /** The controller route overrides the default: class and action come from the controller
      lookup, the identifiers from segments 2 and 3, without `_` normalisation. */
  lemma ResolveControllerRoute(env: Reflection, request: Request, route: ControllerRoute)
    requires ControllerAndActionForRequest(env, request) == Success(Some(route))
    ensures var parts := PathSegments(request.path);
      Resolve(env, request) == Success(RequestInfo(request,
                                                   if |parts| > 3 then Some(parts[3]) else None,
                                                   if |parts| > 2 then Some(parts[2]) else None,
                                                   request.httpMethod, Some(route.action), Some(route.controllerClass), None))
  {
  }

  /** Resolution fails exactly when the controller lookup throws. */
  lemma ResolveFailsOnlyOnInvalidAction(env: Reflection, request: Request)
    ensures Resolve(env, request).Failure? <==> ControllerAndActionForRequest(env, request).Failure?
    ensures Resolve(env, request).Failure? ==> Resolve(env, request).error == InvalidRequestAction(InvalidActionCode)
  {
  }

  /** The descriptor with its request replaced. */
  function WithRequest(r: Result<RequestInfo, RoutingError>, request: Request): Result<RequestInfo, RoutingError> {
    match r
    case Success(info) => Success(info.(request := request))
    case Failure(e) => Failure(e)
  }

  /** Only method, path and query decide the routing: requests with the same key resolve alike. */
  lemma ResolveDependsOnKeyOnly(env: Reflection, first: Request, second: Request)
    requires KeyOf(first) == KeyOf(second)
    ensures Resolve(env, second) == WithRequest(Resolve(env, first), second)
  {
    assert first.path == second.path && first.httpMethod == second.httpMethod;
    assert HandlerClassForRequest(env, first) == HandlerClassForRequest(env, second);
    assert HandlerAction(env, first) == HandlerAction(env, second);
    assert ControllerAndActionForRequest(env, first) == ControllerAndActionForRequest(env, second);
  }

  // ---------------------------------------------------------------------------------------
  // getServerActionForRequest

  /** `shutdown` or `restart` when a POST request's path starts with `_shutdown` or `_restart`
      followed by `/` or the end; FALSE (None) otherwise. Routing does not consult it. */
  function ServerActionForRequest(request: Request): (action: Option<string>)
    ensures action.Some? ==> action.value in ServerActions && request.httpMethod == "POST"
  {
    var path := WithoutLeadingSlash(request.path);
    if !StartsWith(path, '_') || request.httpMethod != "POST" then None
    else
      var action := FirstPiece(path[1..], '/');
      if action in ServerActions then Some(action) else None
  }

  /** A server action is only ever reported for POST, is `shutdown` or `restart`, and is the
      whole directive piece of the path. */
  lemma ServerActionOnlyOnPost(request: Request)
    ensures var action := ServerActionForRequest(request);
      action.Some? ==>
        && request.httpMethod == "POST"
        && action.value in ServerActions
        && var p := WithoutLeadingSlash(request.path);
           p == "_" + action.value || "_" + action.value + "/" <= p
  {
    var path := WithoutLeadingSlash(request.path);
    if StartsWith(path, '_') && request.httpMethod == "POST" {
      var action := FirstPiece(path[1..], '/');
      FirstPieceIsPrefix(path[1..], '/');
      assert path == "_" + path[1..];
      assert action + "/" <= path[1..] ==> "_" + action + "/" <= path;
    }
  }

  /** Conversely, a POST whose directive piece is `shutdown` or `restart` reports that action. */
  lemma ServerActionRecognised(request: Request, action: string)
    requires action in ServerActions && request.httpMethod == "POST"
    requires var p := WithoutLeadingSlash(request.path);
      p == "_" + action || "_" + action + "/" <= p
    ensures ServerActionForRequest(request) == Some(action)
  {
    var path := WithoutLeadingSlash(request.path);
    assert path[0] == '_';
    assert '/' !in action;
    if path == "_" + action {
      assert path[1..] == action;
    } else {
      assert action + "/" <= path[1..];
    }
    FirstPieceOfPrefix(path[1..], action, '/');
  }

  // ---------------------------------------------------------------------------------------
  // copyWithBody

  /** The routing fields of two descriptors agree. */
  predicate SameRouting(a: RequestInfo, b: RequestInfo) {
    && a.request == b.request
    && a.dataIdentifier == b.dataIdentifier
    && a.databaseIdentifier == b.databaseIdentifier
    && a.httpMethod == b.httpMethod
    && a.action == b.action
    && a.controllerClass == b.controllerClass
  }

  /** A new descriptor with the routing decision of `info` and the given body. */
  function CopyWithBody(info: RequestInfo, body: Option<string>): (copy: RequestInfo)
    ensures SameRouting(copy, info) && copy.body == body
    ensures body == info.body ==> copy == info
  {
    RequestInfo(info.request, info.dataIdentifier, info.databaseIdentifier, info.httpMethod,
                info.action, info.controllerClass, body)
  }

  // ---------------------------------------------------------------------------------------
  // The memo table

  /** Every stored descriptor is what resolution gives for the request it was built from,
      and that request has the entry's key. */
  ghost predicate Memoised(env: Reflection, table: map<RequestKey, RequestInfo>) {
    forall key | key in table ::
      && KeyOf(table[key].request) == key
      && Resolve(env, table[key].request) == Success(table[key])
  }

  /** Storing a resolution under its own key keeps the table memoised. */
  lemma MemoisedInsert(env: Reflection, table: map<RequestKey, RequestInfo>, request: Request, info: RequestInfo)
    requires Memoised(env, table)
    requires Resolve(env, request) == Success(info)
    ensures Memoised(env, table[KeyOf(request) := info])
  {
    assert info.request == request;
  }

  /** The body of buildRequestInfoFromRequest on a miss: the identifiers are taken from the
      filtered segments, normalised, and then overridden by a matching controller route. */
  method ResolveRequest(env: Reflection, request: Request) returns (info: Result<RequestInfo, RoutingError>)
    ensures info == Resolve(env, request)
  {
    var pathParts := PathSegments(request.path);
    var dataIdentifier: Option<string> := None;
    var databaseIdentifier: Option<string> := None;
    var controllerClassName: Option<string> := None;
    if |pathParts| >= 2 {
      dataIdentifier := Some(pathParts[1]);
    }
    if |pathParts| >= 1 {
      databaseIdentifier := Some(pathParts[0]);
    }
    var handlerAction := GetHandlerActionForRequest(env, request);
    if databaseIdentifier.Some? && Truthy(databaseIdentifier.value) && databaseIdentifier.value[0] == '_' {
      databaseIdentifier := Some("");
    }
    if dataIdentifier.Some? && Truthy(dataIdentifier.value) && dataIdentifier.value[0] == '_' {
      dataIdentifier := Some("");
    }
    assert databaseIdentifier == NormaliseIdentifier(SegmentAt(pathParts, 0));
    assert dataIdentifier == NormaliseIdentifier(SegmentAt(pathParts, 1));
    var controllerAndAction := ControllerAndActionForRequest(env, request);
    if controllerAndAction.Failure? {
      return Failure(controllerAndAction.error);
    }
    if controllerAndAction.value.Some? {
      var route := controllerAndAction.value.value;
      controllerClassName := Some(route.controllerClass);
      handlerAction := Some(route.action);
      databaseIdentifier := if |pathParts| > 2 then Some(pathParts[2]) else None;
      dataIdentifier := if |pathParts| > 3 then Some(pathParts[3]) else None;
      assert databaseIdentifier == SegmentAt(pathParts, 2) && dataIdentifier == SegmentAt(pathParts, 3);
    }
    info := Success(RequestInfo(request, dataIdentifier, databaseIdentifier, request.httpMethod,
                                handlerAction, controllerClassName, None));
  }

  /** The factory with its static map of requests to descriptors, which only ever grows. */
  class RequestInfoFactory {
    const env: Reflection
    var pathToRequestInfoMap: map<RequestKey, RequestInfo>

    ghost predicate Valid()
      reads this
    {
      Memoised(env, pathToRequestInfoMap)
    }

    constructor(env: Reflection)
      ensures Valid()
      ensures this.env == env && pathToRequestInfoMap == map[]
    {
      this.env := env;
      pathToRequestInfoMap := map[];
    }

    /** Returns the stored descriptor for the request's key; on a miss resolves the request,
        stores the result under the key and returns it. A throw stores nothing. */
    method BuildRequestInfoFromRequest(request: Request) returns (info: Result<RequestInfo, RoutingError>)
      requires Valid()
      modifies this
      ensures Valid()
      ensures KeyOf(request) in old(pathToRequestInfoMap) ==>
        info == Success(old(pathToRequestInfoMap)[KeyOf(request)]) && pathToRequestInfoMap == old(pathToRequestInfoMap)
      ensures KeyOf(request) !in old(pathToRequestInfoMap) ==>
        && info == Resolve(env, request)
        && pathToRequestInfoMap == if info.Success? then old(pathToRequestInfoMap)[KeyOf(request) := info.value]
                                   else old(pathToRequestInfoMap)
      ensures forall key | key in old(pathToRequestInfoMap) ::
        key in pathToRequestInfoMap && pathToRequestInfoMap[key] == old(pathToRequestInfoMap)[key]
    {
      var requestInfoIdentifier := KeyOf(request);
      if requestInfoIdentifier !in pathToRequestInfoMap {
        var resolved := ResolveRequest(env, request);
        if resolved.Failure? {
          return resolved;
        }
        MemoisedInsert(env, pathToRequestInfoMap, request, resolved.value);
        pathToRequestInfoMap := pathToRequestInfoMap[requestInfoIdentifier := resolved.value];
      }
      info := Success(pathToRequestInfoMap[requestInfoIdentifier]);
    }
  }

  /** Building twice for the same method, path and query gives equal results, whatever the
      table held before: the second call returns what the first stored (including the first
      request object), or fails the same way. */
  method BuildTwice(factory: RequestInfoFactory, first: Request, second: Request)
    returns (a: Result<RequestInfo, RoutingError>, b: Result<RequestInfo, RoutingError>)
    requires factory.Valid() && KeyOf(first) == KeyOf(second)
    modifies factory
    ensures factory.Valid()
    ensures b == a
    ensures a.Success? ==> a.value.request.headers == (if KeyOf(first) in old(factory.pathToRequestInfoMap)
                                                       then old(factory.pathToRequestInfoMap)[KeyOf(first)].request.headers
                                                       else first.headers)
  {
    a := factory.BuildRequestInfoFromRequest(first);
    ResolveDependsOnKeyOnly(factory.env, first, second);
    b := factory.BuildRequestInfoFromRequest(second);
  }

  // ---------------------------------------------------------------------------------------
  // Concrete requests

  /** explode of `<a>/<b>` where neither part holds a `/`. */
  lemma SplitTwo(a: string, b: string)
    requires '/' !in a && '/' !in b
    ensures Split(a + "/" + b, '/') == [a, b]
  {
    SplitWithoutSeparator(a, '/');
    SplitWithoutSeparator(b, '/');
    SplitAfterPiece(a, b, '/');
  }

  /** explode of `/<a>/<b>` where neither part holds a `/`. */
  lemma SplitRootedTwo(a: string, b: string)
    requires '/' !in a && '/' !in b
    ensures Split("/" + a + "/" + b, '/') == ["", a, b]
  {
    var rest := a + "/" + b;
    assert "/" + a + "/" + b == "" + "/" + rest by {
      assert "/" + a + "/" + b == "/" + (a + "/" + b);
    }
    SplitAfterPiece("", rest, '/');
    SplitTwo(a, b);
  }

  /** The segments of `/<a>/<b>` for two truthy parts without `/` are those two parts. */
  lemma RootedSegments(a: string, b: string)
    requires '/' !in a && '/' !in b && Truthy(a) && Truthy(b)
    ensures PathSegments("/" + a + "/" + b) == [a, b]
  {
    SplitRootedTwo(a, b);
    assert ["", a, b] == [""] + [a, b];
    FilterTruthySkipsFalsy("", [a, b]);
    FilterTruthyKeepsTruthy([a, b]);
  }

  /** A plain two-segment path `/<db>/<doc>` takes the default route: database `db`,
      document `doc`, no action and no controller. */
  lemma DocumentRoute(env: Reflection, request: Request, db: string, doc: string)
    requires request.path == "/" + db + "/" + doc
    requires '/' !in db && '/' !in doc && Truthy(db) && Truthy(doc)
    requires !StartsWith(db, '_') && !StartsWith(doc, '_')
    ensures Resolve(env, request) == Success(RequestInfo(request, Some(doc), Some(db), request.httpMethod, None, None, None))
  {
    RootedSegments(db, doc);
    var p := WithoutLeadingSlash(request.path);
    assert p == db + "/" + doc;
    assert p[0] == db[0];
    assert !IsControllerPath(request.path);
    SplitTwo(db, doc);
    var cls := HandlerClassForRequest(env, request);
    assert !OffersAction(env, request.httpMethod, cls, db);
    assert !OffersAction(env, request.httpMethod, cls, doc);
    assert HandlerAction(env, request) == None;
    ResolveDefaultRoute(env, request);
  }

  /** An empty or root path takes the default route with no identifiers and never throws. */
  lemma EmptyPathRoute(env: Reflection, request: Request)
    requires request.path == "" || request.path == "/"
    ensures Resolve(env, request) == Success(RequestInfo(request, None, None, request.httpMethod, None, None, None))
  {
  }

  /** `/_<id>/<action>` with a `-` in `id`, when the class `id` names exists and the action
      method name is alphanumeric, routes to that class and action and leaves both
      identifiers NULL. */
  lemma ControllerPathRoute(env: Reflection, request: Request, id: string, action: string)
    requires request.path == "/" + ("_" + id) + "/" + action
    requires '-' in id && '/' !in id && '/' !in action && Truthy(action)
    requires ControllerClassName(id) in env.classes
    requires IsAlnum(ActionName(env, request.httpMethod, action))
    ensures Resolve(env, request) == Success(RequestInfo(request, None, None, request.httpMethod,
                                                         Some(ActionName(env, request.httpMethod, action)),
                                                         Some(ControllerClassName(id)), None))
  {
    var route := ControllerRoute(ControllerClassName(id), ActionName(env, request.httpMethod, action));
    ControllerPathShape(request.path, id, action);
    ResolveControllerRoute(env, request, route);
  }

  /** In particular `/_<ns>-<name>/<action>` routes to `Ns\Controller\NameController`. */
  lemma DashedControllerPathRoute(env: Reflection, request: Request, ns: string, name: string, action: string)
    requires request.path == "/" + ("_" + (ns + "-" + name)) + "/" + action
    requires PlainWord(ns) && PlainWord(name) && '/' !in ns && '/' !in name && '/' !in action && Truthy(action)
    requires Ucfirst(ns) + "\\Controller\\" + Ucfirst(name) + "Controller" in env.classes
    requires IsAlnum(ActionName(env, request.httpMethod, action))
    ensures Resolve(env, request) == Success(RequestInfo(request, None, None, request.httpMethod,
                                                         Some(ActionName(env, request.httpMethod, action)),
                                                         Some(Ucfirst(ns) + "\\Controller\\" + Ucfirst(name) + "Controller"),
                                                         None))
  {
    ControllerClassNameOfDashedIdentifier(ns, name);
    ControllerPathRoute(env, request, ns + "-" + name, action);
  }

  /** The pieces of a controller path `/_<id>/<action>` with a `-` in `id`. */
  lemma ControllerPathShape(path: string, id: string, action: string)
    requires path == "/" + ("_" + id) + "/" + action
    requires '-' in id && '/' !in id && '/' !in action && Truthy(action)
    ensures IsControllerPath(path)
    ensures ControllerPathParts(path) == [id, action]
    ensures PathSegments(path) == ["_" + id, action]
  {
    var p := WithoutLeadingSlash(path);
    assert p == "_" + id + "/" + action;
    assert p[1..] == id + "/" + action;
    assert p[1 + |id|] == '/';
    SplitTwo(id, action);
    RootedSegments("_" + id, action);
  }
}
