# Request dispatch and object registry of the persistent object store

This project models three pieces of the document-store server in Dafny and proves properties of them.

- **RequestInfoFactory** (`request_routing.dfy`) turns a request into a RequestInfo descriptor. The descriptor holds the database and data identifiers, the handler action or controller action, and the controller class. The factory also keeps a process-wide memo table that stores one descriptor per distinct method, path and query.
- **The memory manager's tagged registry** (`memory_manager.dfy`) stores objects under string identifiers. Each object is registered with a set of tags, and a tag index lets callers look up or free objects by tag.
- **MutableControllerResult** (`controller_result.dfy`) is the response builder. It has content type, headers, status code and data, and chainable setters.

Two more files support them:

- `php_strings.dfy` models the PHP string built-ins the routing code relies on. These are explode, implode, array_filter's truthiness test, ucfirst, ucwords, strtolower, str_replace, strrpos, substr and ctype_alnum.
- `wrappers.dfy` holds Option, Result and Outcome. They make FALSE/NULL results and thrown exceptions explicit.

Routing decisions are pure functions of the request, together with a `Reflection` value. `Reflection` stands for the code the factory cannot see:
- the set of existing classes (class_exists);
- the set of declared (class, method) pairs (method_exists);
- `GeneralUtility::underscoreToCamelCase`, as an uninterpreted function.

Imperative parts of the source stay imperative here:
- The memo table is a `map` field of the `RequestInfoFactory` class. Its invariant is that every entry is what `Resolve` gives for the entry's own request.
- The action scan is a `while` loop proved against the function `FirstOfferedAction`.
- The miss branch of `buildRequestInfoFromRequest` is a method that reassigns its locals step by step. It is proved equal to `Resolve`.
- The registry is a class with an object map and a tag index, kept consistent with a ghost record of each identifier's tags.
- The controller result is a class whose setters return `this`.

## Model

| member | source | states |
|---|---|---|
| PhpStrings.Split | Classes/Server/ValueObject/RequestInfoFactory.php:40 | explode always yields at least one piece; a single piece exactly when the separator is absent; no piece contains the separator |
| PhpStrings.JoinSplit | Classes/Server/ValueObject/RequestInfoFactory.php:40 | implode of the pieces of explode gives back the original path |
| PhpStrings.SplitJoin | Classes/Server/ValueObject/RequestInfoFactory.php:40 | explode inverts implode when no piece contains the separator |
| PhpStrings.SplitAfterPiece | Classes/Server/ValueObject/RequestInfoFactory.php:216 | a separator-free piece followed by `/` is the first piece of explode, followed by the pieces of the rest |
| PhpStrings.FirstPieceIsPrefix | Classes/Server/ValueObject/RequestInfoFactory.php:103-106 | `strstr(path, '/', true)` or the whole path: separator-free, and either the whole string or a prefix followed by `/` |
| PhpStrings.FirstPieceOfPrefix | Classes/Server/ValueObject/RequestInfoFactory.php:247 | conversely, a separator-free prefix followed by `/` (or the whole string) is the first piece of `explode('/', s, 2)` |
| PhpStrings.FilterTruthy | Classes/Server/ValueObject/RequestInfoFactory.php:41-43 | array_filter with `!!$item` keeps exactly the truthy pieces ("" and "0" are dropped) |
| PhpStrings.FilterTruthyAppend | Classes/Server/ValueObject/RequestInfoFactory.php:41-43 | filtering keeps the original order: it distributes over concatenation |
| PhpStrings.FilterTruthyKeepsTruthy | Classes/Server/ValueObject/RequestInfoFactory.php:41-43 | a sequence of truthy pieces is kept as it is |
| PhpStrings.FilterTruthySkipsFalsy | Classes/Server/ValueObject/RequestInfoFactory.php:41-43 | a falsy leading piece is dropped |
| PhpStrings.LastIndexOf | Classes/Server/ValueObject/RequestInfoFactory.php:160 | strrpos is FALSE exactly when the character is absent, otherwise the position of its last occurrence |
| PhpStrings.LastIndexOfOnly | Classes/Server/ValueObject/RequestInfoFactory.php:160 | strrpos of a character that occurs once is its position |
| PhpStrings.UcwordsOfWord | Classes/Server/ValueObject/RequestInfoFactory.php:110 | within one word ucwords only upper-cases the first character |
| PhpStrings.UcwordsAppend | Classes/Server/ValueObject/RequestInfoFactory.php:161 | ucwords works piecewise: the second part is processed in the state the first part leaves |
| PhpStrings.UcwordsFlagAfterLast | Classes/Server/ValueObject/RequestInfoFactory.php:161 | a new word starts exactly after a delimiter (space, tab, CR, LF, vertical tab, form feed) |
| PhpStrings.UcwordsCharwise | Classes/Server/ValueObject/RequestInfoFactory.php:110 | ucwords keeps the length; a character is upper-cased exactly when it starts the string or follows a delimiter, and is kept otherwise |
| PhpStrings.UcfirstKeepsNonLetters | Classes/Server/ValueObject/RequestInfoFactory.php:118 | ucfirst keeps the length, and a non-letter occurs in the result exactly when it occurs in the input |
| PhpStrings.UcfirstIdempotent | Classes/Server/ValueObject/RequestInfoFactory.php:165 | ucfirst applied twice is ucfirst |
| PhpStrings.UcfirstKeepsWordDelimiters | Classes/Server/ValueObject/RequestInfoFactory.php:161 | ucfirst creates no word delimiter |
| RequestRouting.PathSegments | Classes/Server/ValueObject/RequestInfoFactory.php:40-43 | every segment is truthy (not "" or "0") and holds no `/` |
| RequestRouting.ApplicationClassName | Classes/Server/ValueObject/RequestInfoFactory.php:110 | character by character: each `_` (and space) becomes a namespace separator; a character is upper-cased exactly when it is first or follows `_` or a ucwords delimiter, and kept otherwise; then `\Application` |
| RequestRouting.ApplicationClassNameOfWord | Classes/Server/ValueObject/RequestInfoFactory.php:110 | the word `foo` names `Foo\Application` |
| RequestRouting.ApplicationClassNameOfTwoWords | Classes/Server/ValueObject/RequestInfoFactory.php:110 | `foo_bar` names `Foo\Bar\Application` |
| RequestRouting.HandlerClassName | Classes/Server/ValueObject/RequestInfoFactory.php:116-119 | the name is the handler namespace, the identifier with its first character upper-cased, then `Handler` |
| RequestRouting.HandlerClassForRequest | Classes/Server/ValueObject/RequestInfoFactory.php:89-124 | the handler class is the interface or an existing class; a path that is not a directive gets the interface |
| RequestRouting.HandlerClassPrecedence | Classes/Server/ValueObject/RequestInfoFactory.php:109-123 | an existing `…\Application` class beats an existing `…Handler` class; when neither exists the interface is returned |
| RequestRouting.ActionName | Classes/Server/ValueObject/RequestInfoFactory.php:220-222 | the action method name is a stem followed by `Action`, whatever the method and the name |
| RequestRouting.FirstOfferedAction | Classes/Server/ValueObject/RequestInfoFactory.php:218-228 | the action of the leftmost non-empty `_` piece whose method the class declares; FALSE exactly when no piece qualifies |
| RequestRouting.ActionForRequestAndClass | Classes/Server/ValueObject/RequestInfoFactory.php:206-229 | FALSE for an empty path; any action returned is declared by the class |
| RequestRouting.GetActionForRequestAndClass | Classes/Server/ValueObject/RequestInfoFactory.php:206-229 | the foreach scan with early return computes the leftmost match, and FALSE for an empty path |
| RequestRouting.ActionNeedsDirective | Classes/Server/ValueObject/RequestInfoFactory.php:218-226 | an action is found only in a path that holds a `_` |
| RequestRouting.HandlerAction | Classes/Server/ValueObject/RequestInfoFactory.php:190-197 | any handler action is declared by the chosen handler class, and the path holds a `_` |
| RequestRouting.GetHandlerActionForRequest | Classes/Server/ValueObject/RequestInfoFactory.php:190-197 | the scan run against the chosen handler class returns the handler action |
| RequestRouting.ControllerPathParts | Classes/Server/ValueObject/RequestInfoFactory.php:151-155 | a controller path has at least two raw parts after the `_` |
| RequestRouting.ControllerAndActionForRequest | Classes/Server/ValueObject/RequestInfoFactory.php:135-182 | FALSE for an empty path, a path without leading `_` or without `-`, fewer than two parts, or an unknown class; the exception with code 1420547305 exactly when the class exists and the action name is not alphanumeric; otherwise the class and action; method existence is not checked |
| RequestRouting.ControllerClassName | Classes/Server/ValueObject/RequestInfoFactory.php:158-166 | the class name always ends in `Controller` |
| RequestRouting.ControllerClassNameOfLastDash | Classes/Server/ValueObject/RequestInfoFactory.php:158-166 | for an identifier without `_` or delimiters whose last `-` is at k: the parts before k, each capitalised and joined by namespace separators, then `\Controller\`, then ucfirst of the part after k, then `Controller` |
| RequestRouting.ControllerClassNameOfThreeParts | Classes/Server/ValueObject/RequestInfoFactory.php:158-166 | `a-b-c` names `A\B\Controller\CController` |
| RequestRouting.ControllerClassNameOfDashedIdentifier | Classes/Server/ValueObject/RequestInfoFactory.php:158-166 | `<ns>-<name>` names `Ns\Controller\NameController` |
| RequestRouting.ControllerClassNameWithoutDash | Classes/Server/ValueObject/RequestInfoFactory.php:160-166 | with no `-` in the identifier, strrpos is FALSE, the cut falls after the first character, and `foo` names `FController\OoController` |
| RequestRouting.RemoveAbsentChar | Classes/Server/ValueObject/RequestInfoFactory.php:159 | removing spaces from a string without spaces changes nothing |
| RequestRouting.NormaliseIdentifier | Classes/Server/ValueObject/RequestInfoFactory.php:55-60 | an identifier starting with `_` becomes "", any other is kept, NULL stays NULL; no result starts with `_` |
| RequestRouting.Resolve | Classes/Server/ValueObject/RequestInfoFactory.php:40-77 | a descriptor keeps the request and its method and has no body; a controller class exists and comes with an alphanumeric action; without a controller, the action is declared by the handler class |
| RequestRouting.ResolveDefaultRoute | Classes/Server/ValueObject/RequestInfoFactory.php:40-60 | without a controller route: database and data identifiers are segments 0 and 1, NULL when missing, "" when they start with `_`; the action is the handler action; no controller class |
| RequestRouting.ResolveControllerRoute | Classes/Server/ValueObject/RequestInfoFactory.php:62-77 | a controller route overrides class and action, and the identifiers become segments 2 and 3 or NULL, with no `_` normalisation |
| RequestRouting.ResolveFailsOnlyOnInvalidAction | Classes/Server/ValueObject/RequestInfoFactory.php:62 | building fails exactly when the controller lookup throws, and with that exception |
| RequestRouting.ResolveDependsOnKeyOnly | Classes/Server/ValueObject/RequestInfoFactory.php:37-38 | two requests with the same method, path and query resolve to the same descriptor apart from the request itself |
| RequestRouting.ResolveRequest | Classes/Server/ValueObject/RequestInfoFactory.php:40-77 | the step-by-step body of a miss computes `Resolve` |
| RequestRouting.MemoisedInsert | Classes/Server/ValueObject/RequestInfoFactory.php:69-77 | storing a resolution under its own key keeps the table memoised |
| RequestRouting.RequestInfoFactory.constructor | Classes/Server/ValueObject/RequestInfoFactory.php:27 | the table starts empty |
| RequestRouting.RequestInfoFactory.BuildRequestInfoFromRequest | Classes/Server/ValueObject/RequestInfoFactory.php:35-80 | a hit returns the stored descriptor and changes nothing; a miss returns `Resolve` and inserts exactly that key on success, nothing on a throw; no entry is ever overwritten; the table stays memoised |
| RequestRouting.BuildTwice | Classes/Server/ValueObject/RequestInfoFactory.php:35-80 | building twice for the same method, path and query returns equal results; the descriptor keeps the request that first filled the entry |
| RequestRouting.ServerActionForRequest | Classes/Server/ValueObject/RequestInfoFactory.php:237-253 | a server action is `shutdown` or `restart`, and only for POST |
| RequestRouting.ServerActionOnlyOnPost | Classes/Server/ValueObject/RequestInfoFactory.php:237-253 | a server action is reported only for POST, is `shutdown` or `restart`, and is the whole first piece after the `_` of the de-slashed path |
| RequestRouting.ServerActionRecognised | Classes/Server/ValueObject/RequestInfoFactory.php:241-251 | a POST whose de-slashed path is `_shutdown` or `_restart`, alone or followed by `/`, always reports that action |
| RequestRouting.CopyWithBody | Classes/Server/ValueObject/RequestInfoFactory.php:262-274 | the copy has the routing of the original and the given body; copying with the own body gives the original back |
| RequestRouting.RootedSegments | Classes/Server/ValueObject/RequestInfoFactory.php:40-43 | the segments of `/<a>/<b>` are `a` and `b` |
| RequestRouting.DocumentRoute | Classes/Server/ValueObject/RequestInfoFactory.php:40-77 | `/<db>/<doc>` resolves to database `db`, document `doc`, no action, no controller |
| RequestRouting.EmptyPathRoute | Classes/Server/ValueObject/RequestInfoFactory.php:40-77 | `""` and `/` resolve to no identifiers, no action and no controller, and never throw |
| RequestRouting.ControllerPathShape | Classes/Server/ValueObject/RequestInfoFactory.php:141-155 | `/_<id>/<action>` with a `-` in `id` is a controller path with parts `id` and `action` |
| RequestRouting.ControllerPathRoute | Classes/Server/ValueObject/RequestInfoFactory.php:62-77 | `/_<id>/<action>` with a known class and an alphanumeric action name resolves to that class and action with NULL identifiers |
| RequestRouting.DashedControllerPathRoute | Classes/Server/ValueObject/RequestInfoFactory.php:135-181 | `/_<ns>-<name>/<action>` resolves to `Ns\Controller\NameController` |
| MemoryManager.CarriersAfterRegister | Classes/Memory/ManagerInterface.php:17-23 | re-registering an identifier moves it out of every bucket and into exactly the buckets of its new tags |
| MemoryManager.CarriersAfterFree | Classes/Memory/ManagerInterface.php:41-47 | freeing identifiers removes them from every tag's identifiers and nothing else |
| MemoryManager.RegisterKeepsConsistent | Classes/Memory/ManagerInterface.php:17-23 | registering keeps the tag index equal to the registrations, with no empty bucket |
| MemoryManager.FreeKeepsConsistent | Classes/Memory/ManagerInterface.php:41-47 | freeing keeps the tag index equal to the registrations, with no empty bucket |
| MemoryManager.Manager.constructor | Classes/Memory/ManagerInterface.php:14 | the registry starts empty |
| MemoryManager.Manager.RegisterObject | Classes/Memory/ManagerInterface.php:17-23 | the object replaces any earlier one under the identifier; the identifier's tags are replaced; the index stays consistent |
| MemoryManager.Manager.GetObject | Classes/Memory/ManagerInterface.php:25-31 | the registered object, or FALSE exactly when nothing is registered |
| MemoryManager.Manager.HasObject | Classes/Memory/ManagerInterface.php:33-39 | true exactly when an object is registered under the identifier |
| MemoryManager.Manager.Free | Classes/Memory/ManagerInterface.php:41-47 | removes the object and all its tag memberships; throws NotRegistered and changes nothing when nothing is registered |
| MemoryManager.Manager.GetIdentifiersByTag | Classes/Memory/ManagerInterface.php:50-58 | exactly the identifiers registered with the tag; throws UnknownTag exactly when no object carries it and `graceful` is false; graceful gives the empty set |
| MemoryManager.Manager.GetObjectsByTag | Classes/Memory/ManagerInterface.php:60-66 | exactly the objects registered with the tag, keyed by identifier |
| MemoryManager.Manager.FreeObjectsByTag | Classes/Memory/ManagerInterface.php:68-74 | frees exactly the objects carrying the tag and returns their identifiers; none remains registered or in any bucket |
| MemoryManager.Manager.FreeAll | Classes/Memory/ManagerInterface.php:76-81 | afterwards no identifier has an object |
| MemoryManager.Manager.Cleanup | Classes/Memory/ManagerInterface.php:83-86 | changes no identifier and no tag |
| MemoryManager.RegisterThenGet | Classes/Memory/ManagerInterface.php:17-31 | after registering, getObject returns the object and each of its tags lists it |
| MemoryManager.TagLifecycle | Classes/Memory/ManagerInterface.php:50-66 | register `k1` with `t1` and `t2`, look up `t1`, free `k1`: the graceful lookup of `t1` is empty and the strict one throws UnknownTag |
| ControllerResults.HeaderValue | Classes/Server/ValueObject/MutableControllerResult.php:55 | a header reads as NULL exactly when its name is not set |
| ControllerResults.WithHeader | Classes/Server/ValueObject/MutableControllerResult.php:55 | the list grows by one exactly when the name was not yet set |
| ControllerResults.WithHeaderValue | Classes/Server/ValueObject/MutableControllerResult.php:55 | after `$headers[$name] = $value` the name reads as the new value and every other name as before |
| ControllerResults.WithHeaderNames | Classes/Server/ValueObject/MutableControllerResult.php:55 | an existing header keeps its position, a new one is appended |
| ControllerResults.WithHeaderUnique | Classes/Server/ValueObject/MutableControllerResult.php:55 | header names stay unique |
| ControllerResults.WithHeaderTwice | Classes/Server/ValueObject/MutableControllerResult.php:55 | setting a header twice is setting it once to the second value |
| ControllerResults.MutableControllerResult.constructor | Classes/Server/ValueObject/MutableControllerResult.php:18 | the initial values are stored |
| ControllerResults.MutableControllerResult.SetContentType | Classes/Server/ValueObject/MutableControllerResult.php:26-31 | sets the content type, changes nothing else, returns this object |
| ControllerResults.MutableControllerResult.SetHeaders | Classes/Server/ValueObject/MutableControllerResult.php:39-44 | replaces the whole header list, changes nothing else, returns this object |
| ControllerResults.MutableControllerResult.AddHeader | Classes/Server/ValueObject/MutableControllerResult.php:53-58 | sets one header, overwriting in place, leaves every other header and field unchanged, returns this object |
| ControllerResults.MutableControllerResult.SetStatusCode | Classes/Server/ValueObject/MutableControllerResult.php:66-71 | sets the status code, changes nothing else, returns this object |
| ControllerResults.MutableControllerResult.SetData | Classes/Server/ValueObject/MutableControllerResult.php:79-84 | sets the data, changes nothing else, returns this object |
| ControllerResults.FillResult | Classes/Server/ValueObject/MutableControllerResult.php:30 | a chain of setters acts on one object and leaves exactly the values set, the last header value winning |

## Left out

- Hashing: the memo key is the (method, path, query) triple itself. sha1 and json_encode are not modelled, so hash collisions are not modelled either. Neither is the key sharing that comes before hashing: json_encode returns FALSE for a query holding invalid UTF-8, FALSE prints as "", and so all such queries with the same method and path share one entry, which keeps the first request. The routing decision is the same for all of them.
- Reflection: class_exists and method_exists are fixed sets of a `Reflection` value. PHP's case-insensitive class and method lookup is not modelled.
- `GeneralUtility::underscoreToCamelCase` is not part of this model. It is an uninterpreted function, and properties are stated relative to it.
- The request object is a datatype holding method, path, query and headers. React's request class is not part of this model.
- The body of a RequestInfo (PHP `mixed`) is an opaque `Option<string>`: only whether and which body is carried matters to the model.
- RequestRouting.ControllerClassName: closed forms are proved for identifiers without `_` (any number of `-`, and none). A `_` inside a part is camel-cased away before the `-` is looked for (`my_ns-thing` names `MyNs\Controller\ThingController`); that shape is computed by the function but no lemma states it.
- RequestInfo is a datatype in the order of its constructor. Its getters are not part of this model.
- Static state: the factory's map and the registry are instance fields of one object, not process-wide statics. PHP runs this code single-threaded, so concurrency is not modelled.
- RequestRouting.ServerActionForRequest: the source reads `$path[0]` without checking for an empty path. PHP then warns and yields "", so the model returns FALSE for the empty path instead of requiring a non-empty one.
- PhpStrings.Suffix: past the end of the string, substr gives FALSE before PHP 8 and "" from PHP 8. Every use here turns it into "", and the model uses "".
- Case mapping (strtolower, ucfirst, ucwords) covers ASCII letters only, as PHP 8 does.
- PHP array keys: header names are strings, not the integer keys PHP makes of numeric strings.
- The header values are a type parameter; PHP allows any value there.
- ControllerResults.MutableControllerResult.SetHeaders requires unique names. A PHP array has unique keys by construction, and the model's ordered list of pairs needs that stated.
- The defaults of AbstractControllerResult are not part of this model. The constructor takes the initial values.
- The registry's tag list is a set: a tag repeated in the PHP array counts once.
- ManagerInterface.php is an interface. The implementing class is not part of this model, so these behaviours are choices documented here:
  - emptied tag buckets are pruned, so a strict lookup of a tag that every object has left throws UnknownTag;
  - re-registering an identifier replaces both its object and its tags;
  - getObjectsByTag returns the objects keyed by identifier;
  - freeObjectsByTag of an unknown tag frees nothing and returns the empty set.
- SharedEventEmitter is not part of this model. It wraps an event emitter and the event loop.
