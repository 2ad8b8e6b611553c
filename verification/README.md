# Nexus edge: admission, scanner, uplink, encoder and trace proofs

A Dafny model of the most intricate parts of the Nexus edge repository, with
proofs about all inputs and all runs. `dafny verify dfyconfig.toml` checks
everything.

**RPC admission** (`Strings`, `RoutePath`, `Json`, `BodyCheck`, `ActorToken`,
`ReplayCache`, `ResponseCache`, `RpcProtocol`, `RpcSafety`, `RpcAuthority`,
`RpcLockstep`, `RpcScenarios`, `RpcDispatcher`). Inbound calls and remote-shell grants are the
flights of one step system: verify, look up the response cache, admit to the bounded FIFO replay
cache, clear (body rule, system gate, audit), start the handler, finish, store.
Steps of different calls interleave freely. The two caches and the dispatcher are
also modelled as objects whose methods change them in place; the dispatcher is
proved to perform a run of the step system, so every run theorem holds of it.
`RpcScenarios` holds concrete runs that show which hypotheses the theorems need.
Tokens are the JWS compact serialization (section 7.1 of RFC 7515) with EdDSA
(section 3.1 of RFC 8037) and the `exp` and `iat` claims (sections 4.1.4 and 4.1.6
of RFC 7519). Base64, JSON, signature check and permission table are parameters,
so the theorems hold for any of them.

**Span-cardinality scanner** (`Lexer`, `Brackets`, `Marker`, `FieldArgs`, `ArgForms`,
`SpanFields`, `SourceScan`). Each walker is a loop over the bytes of a file. There
is one tokenization, `Reach`; every walker is proved to agree with it although
none of them is told where an inner region ends. What a token, a line and an argument
are is also said over characters alone (`OpaqueIff`, `LineIsText`, `KindIff`), and the
functions the walkers follow are proved equal to that.

**Uplink** (`Uplink`, `UplinkSafety`, `Connection`). Callers, pump, peer and
connection owner interleave as steps over the three bounded queues and the inbound
stream; the connection object's methods perform those steps in place and record the
run they make, so the run theorems hold of the object.

**Half floats** (`Binades`, `HalfBits`, `HalfFloat`). The encoder is written bit
for bit over bit vectors; its meaning is stated over the reals (binary formats of
section 3.4 of IEEE 754-2019).

**Traces** (`Sampling`, `SpanTree`, `TraceUploader`). The span registry with the
layer's hooks, and the batching uploader, each as a step system and as an object.

## Findings

- Both caches key on the pair (token id, request id). The dispatcher's comment at
  crates/nexus-cloud-client/src/dispatcher.rs:322-329 speaks of a retry with a
  possibly fresh token id; in the code that is a new key. A pair never stored misses
  the response cache (`UnstoredPairMisses`), and `FreshTokenIdRunsAgain` is a run in
  which one request id starts the handler twice with room to spare in both caches.
- Two token ids can share a key for some request ids exactly when one is the other
  followed by `|` and anything (`KeyCollisionIff`). UUIDs never do.
- A call is admitted exactly when its key is not among the last `capacity` admitted
  (`AdmittedIffOutsideWindow`). Global at-most-once therefore needs a rate bound
  (`EvictionRunsTwice` is a run without one), and besides it that one token id stands
  for one `iat` and `exp`: in `SharedTokenIdRunsTwice` lifetime, delay and rate bounds
  hold and one pair starts the handler twice.
- The dispatcher accepts calls without a request id. Their successes are remembered by
  the replay cache and never cached, so their retries are refused
  (`BareSuccessIsRefusedLater`). Of the successes the replay cache remembers, with one
  call at a time exactly those with a request id are served again (`SuccessCachedIff`).
- In any interleaving the latest response of a key is served exactly while fewer than
  `capacity` fresh keys have been stored since the key took its slot
  (`LatestServedIff`). Calls that store in admission order and never over one another
  keep the caches in step (`InOrderStoresKeepUp`), one call at a time among them.
  Overlapping calls that store in reverse order do not: in `OverlapLosesSuccess` a
  success is remembered, not cached, and its retry is refused.
- A raw string is never recognised as an event's message, so arguments after it are
  still read as fields (`RawStringIsNeverMessage`). The name walk of the argument
  classifier leaves the tokenization exactly when it stops just inside a raw string
  (`NameWalkAligned`); nothing is reported from there.
- The comments at crates/nexus-cloud-client/src/trace_layer.rs:65-68 and 227-231 say
  that children of a dropped span start their own trace. In the code they do so
  exactly when no span above them is exported (`RerootsIffNothingAbove`);
  `DroppedSpanIsSkipped` is a run in which one keeps the trace further up.
- The encoder flushes every magnitude below 2^-14 to zero, so binary16 subnormals are
  never produced; from 65504 up to 2^16 it truncates instead of overflowing.

## Model

| member | source | states |
|---|---|---|
| RoutePath.RouteIff | crates/nexus-cloud-client/src/actor_token.rs:183-193 | the normalizer answers exactly the route a path names: the slash-joined parts are its query-free text less one outer slash on either side, for every path and every list of parts |
| RoutePath.RefusedIff | crates/nexus-cloud-client/src/actor_token.rs:184-190 | a path is refused exactly when its query-free text holds a percent, hash or backslash sign, a doubled slash or a dot segment |
| RoutePath.PartsAreClean | crates/nexus-cloud-client/src/actor_token.rs:183-193 | no part of an accepted route is a dot segment, holds a query mark, or is empty unless the route is the root |
| RoutePath.NormalizeIsIdempotent | crates/nexus-cloud-client/src/actor_token.rs:183-193 | joining the parts and normalizing again gives the same parts, for every string |
| RoutePath.QueryIsIgnored | crates/nexus-cloud-client/src/actor_token.rs:183-184 | appending any query leaves the route, or the refusal, unchanged |
| RoutePath.SlashesAreOptional | crates/nexus-cloud-client/src/actor_token.rs:184-192 | one added leading or trailing slash changes nothing, for every path, with or without a query |
| ActorToken.NormalFormDecides | crates/nexus-cloud-client/src/actor_token.rs:197-201 | a request naming its route in normal form gets the same capabilities and the same body rule |
| BodyCheck.BodyRuleIff | crates/nexus-cloud-client/src/actor_token.rs:320-373 | a body is accepted exactly when its route is named and, if it addresses a camera by a numeral, a PTZ call names an action its capability covers and every exposed id writes that camera number |
| BodyCheck.PtzIff | crates/nexus-cloud-client/src/actor_token.rs:331-346 | which capability each PTZ action word takes; any other word, or none, is refused |
| Strings.ParseIff | crates/nexus-cloud-client/src/actor_token.rs:327 | parsing succeeds exactly on numerals below 2^64: an optional plus sign, zeros, and the decimal digits of the number |
| BodyCheck.OnlyCameraMeansExposed | crates/nexus-cloud-client/src/actor_token.rs:347-372 | the recursive rule holds exactly when every camera-id field not below another one names only that camera |
| BodyCheck.CheckFields | crates/nexus-cloud-client/src/actor_token.rs:351-366 | one object is accepted exactly when its own camera-id fields match; all its other values are queued |
| BodyCheck.CheckCameras | crates/nexus-cloud-client/src/actor_token.rs:347-372 | the pending-stack loop terminates on bodies of any depth and width and equals the recursive rule |
| BodyCheck.BodyMatches | crates/nexus-cloud-client/src/actor_token.rs:320-373 | the whole check equals the declarative rule: camera route, PTZ action, camera ids |
| BodyCheck.BodyNamesRouteCamera | crates/nexus-cloud-client/src/actor_token.rs:320-373 | in an accepted body every exposed id is the camera of the normalized route |
| ActorToken.CheckWindow | crates/nexus-cloud-client/src/actor_token.rs:690-704 | no reason is given exactly when the skewed window contains the clock reading |
| ActorToken.AllowsRpcIff | crates/nexus-cloud-client/src/actor_token.rs:134-177 | the permission decision equals two rules over claims, action table and body: service subjects keep to their listed actions; without `perm` a GET, HEAD or OPTIONS or a table row that is not empty, with `perm` its place in the row and a fitting body |
| ActorToken.VerifiedIffSigned | crates/nexus-cloud-client/src/actor_token.rs:627-686 | claims bytes come out exactly for three-part tokens signed by the key their header selects |
| ActorToken.SelectedKeyIff | crates/nexus-cloud-client/src/actor_token.rs:652-671 | the key is the one registered under the key id; without one, the only registered key and only when allowed |
| ActorToken.VerifyIffGrants | crates/nexus-cloud-client/src/actor_token.rs:510-557 | a token is accepted exactly when signature, audience, core, method, path, window, permission and system rule all hold |
| ActorToken.VerifyShellIffGrants | crates/nexus-cloud-client/src/actor_token.rs:583-606 | a shell token is accepted exactly when signature, shell audience, core, session and window all hold |
| ActorToken.NotThreeParts | crates/nexus-cloud-client/src/actor_token.rs:627-634 | a token that is not three dot-free parts is malformed |
| ActorToken.TokenRefusedFor | crates/nexus-cloud-client/src/actor_token.rs:635-686 | a three-part token that is refused gets the reason of the first check that fails: encoding, header, algorithm, key, signature |
| ActorToken.ClaimsRefusedFor | crates/nexus-cloud-client/src/actor_token.rs:515-557 | signed claims are accepted when all nine checks hold, and else refused for the first that fails |
| ActorToken.ShellRefusedFor | crates/nexus-cloud-client/src/actor_token.rs:589-606 | the same of shell claims |
| ReplayCache.KeyCollisionIff | crates/nexus-cloud-client/src/jti_cache.rs:140-154 | exactly which token ids can collide |
| ReplayCache.ComposeKeyInjective | crates/nexus-cloud-client/src/jti_cache.rs:140-154 | token ids without the separator never collide |
| ReplayCache.InsertKeepsWindow | crates/nexus-cloud-client/src/jti_cache.rs:103-120 | an offer keeps: order is the last `capacity` admitted keys, without repeats, seen is its set, equal keys lie further apart |
| ReplayCache.SeenFollowsOrder | crates/nexus-cloud-client/src/jti_cache.rs:112-118 | eviction removes the same key from set and order |
| ReplayCache.JtiReplayCache.constructor | crates/nexus-cloud-client/src/jti_cache.rs:59-67 | starts empty and valid |
| ReplayCache.JtiReplayCache.InsertKeyed | crates/nexus-cloud-client/src/jti_cache.rs:103-120 | in-place update; refused exactly when the key is one of the last `capacity` admitted |
| ReplayCache.JtiReplayCache.ContainsKeyed | crates/nexus-cloud-client/src/jti_cache.rs:132-137 | membership is membership in that window |
| ResponseCache.PutKeepsShape | crates/nexus-cloud-client/src/response_cache.rs:117-135 | body keys are exactly the order's, once each, bounded; an overwrite keeps its slot |
| ResponseCache.PutKeepsFaithful | crates/nexus-cloud-client/src/response_cache.rs:117-135 | every cached body is the latest stored under its key |
| ResponseCache.PutFreshIsPush | crates/nexus-cloud-client/src/response_cache.rs:128-134 | a fresh key pushes onto a bounded window |
| ResponseCache.PutAllIsSound | crates/nexus-cloud-client/src/response_cache.rs:117-135 | whatever is stored in whatever order, the cache stays well-formed and holds latest bodies |
| ResponseCache.OrderIsFreshWindow | crates/nexus-cloud-client/src/response_cache.rs:123-134 | the eviction order is the window of the keys that were absent when stored |
| ResponseCache.CachedIff | crates/nexus-cloud-client/src/response_cache.rs:117-135 | a key is cached exactly while fewer than `capacity` fresh stores followed the one that took its slot |
| ResponseCache.SlotExists | crates/nexus-cloud-client/src/response_cache.rs:123-134 | every stored key has such a slot |
| ResponseCache.RpcResponseCache.Get | crates/nexus-cloud-client/src/response_cache.rs:101-107 | a hit returns the bytes of the latest store |
| ResponseCache.RpcResponseCache.Insert | crates/nexus-cloud-client/src/response_cache.rs:117-135 | in-place store, shape and contents kept |
| RpcSafety.Invariant | crates/nexus-cloud-client/src/dispatcher.rs:294-383 | every state of every interleaving satisfies the protocol invariant |
| RpcSafety.StartHasAdmission | crates/nexus-cloud-client/src/dispatcher.rs:342-382 | each token-bearing handler start has exactly one admission, its own |
| RpcSafety.AdmittedIffOutsideWindow | crates/nexus-cloud-client/src/jti_cache.rs:103-120 | in every reachable state a call is admitted exactly when its key is not among the last `capacity` admitted, and refused exactly otherwise |
| RpcSafety.GrantHasAdmission | crates/nexus-cloud-client/src/actor_token.rs:583-622 | every shell grant comes from a token granted for that session, through exactly one admission |
| RpcSafety.GrantsAreFarApart | crates/nexus-cloud-client/src/actor_token.rs:606-609 | two grants of one token id lie more than `capacity` admissions apart |
| RpcSafety.WindowAtMostOnce | crates/nexus-cloud-client/src/dispatcher.rs:342-362 | in any interleaving two starts for one key lie more than `capacity` admissions apart, shell grants included |
| RpcSafety.SameTokenReuseIsClose | crates/nexus-cloud-client/src/actor_token.rs:690-704 | two admissions of one token lie within its lifetime plus twice the skew plus the verify-to-admit delay |
| RpcSafety.GlobalAtMostOnce | crates/nexus-cloud-client/src/dispatcher.rs:322-382 | under the stated rate a (token id, request id) pair starts the handler at most once in the whole run |
| RpcSafety.StartsAreAuthorized | crates/nexus-cloud-client/src/dispatcher.rs:302-404 | every start is an anonymous safe read, or a fully verified call that passes the permission decision and the system policy, audited beforehand for the same call, envelope and actor |
| RpcSafety.HitsReplayLatest | crates/nexus-cloud-client/src/dispatcher.rs:337-341 | a hit returns the bytes of the latest stored run of its key and adds no admission, audit or start |
| RpcAuthority.StartsAreEntitled | crates/nexus-cloud-client/src/dispatcher.rs:302-404 | in every run each handler start is a token-less safe read, or a call that signed claims entitle to at the time of checking: audience, core, method, path, window, system rule, permission and body, all spelled out |
| RpcAuthority.AuditsAreEntitled | crates/nexus-cloud-client/src/dispatcher.rs:387-405 | in every run each audit record is of a call its signed claims entitle to, under the system policy, for that call, envelope and actor |
| RpcAuthority.HitsAreEntitled | crates/nexus-cloud-client/src/dispatcher.rs:330-341 | in every run each response-cache hit answers a call that its own signed claims entitle to |
| RpcAuthority.CachedAdmissionsAreEntitled | crates/nexus-cloud-client/src/dispatcher.rs:332-353 | on the cached path no replay key is used up by a call its claims do not entitle to |
| RpcAuthority.ForbiddenLeavesNoTrace | crates/nexus-cloud-client/src/dispatcher.rs:332-336 | a verified call on the cached path that the rules forbid ends as a permission mismatch with both caches and every log unchanged, and takes no further step |
| RpcAuthority.GrantsAreEntitled | crates/nexus-cloud-client/src/actor_token.rs:583-622 | in every run each shell grant comes from claims signed for that core and session, within their window |
| RpcAuthority.KeysNameTheirPair | crates/nexus-cloud-client/src/dispatcher.rs:322-362 | in every run an admission, a hit and a store carry the signed token id of their own call, joined by a bar with its request id when it has one |
| RpcLockstep.SequentialInvariant | crates/nexus-cloud-client/src/dispatcher.rs:330-362 | with one call at a time and equal capacities, stores follow admission order and each takes a slot of its own |
| RpcLockstep.LatestServedIff | crates/nexus-cloud-client/src/response_cache.rs:101-135 | in every interleaving the latest store of a key is served exactly while fewer than `capacity` fresh stores followed its slot, and nothing is served otherwise |
| RpcLockstep.InOrderStoresKeepUp | crates/nexus-cloud-client/src/dispatcher.rs:342-362 | in any interleaving whose stores follow admission order and are all fresh, a remembered response is cached |
| RpcLockstep.SuccessIsStored | crates/nexus-cloud-client/src/dispatcher.rs:356-362 | a finished call on the cached path has its own store with the handler's bytes |
| RpcLockstep.SuccessCachedIff | crates/nexus-cloud-client/src/dispatcher.rs:330-362 | one call at a time: of the handler successes the replay cache remembers, exactly those with a request id are cached, with their own bytes |
| RpcLockstep.SuccessStaysCached | crates/nexus-cloud-client/src/dispatcher.rs:330-362 | one call at a time: a remembered handler success with a request id is cached, whatever its token id |
| RpcLockstep.RetryIsServed | crates/nexus-cloud-client/src/dispatcher.rs:337-341 | its verified retry, same token id and request id, gets those bytes |
| RpcLockstep.RefusedRetryNeverSucceeded | crates/nexus-cloud-client/src/dispatcher.rs:342-353 | once a call has missed the response cache, no remembered handler run of its pair has succeeded |
| RpcLockstep.UnstoredPairMisses | crates/nexus-cloud-client/src/dispatcher.rs:337-341 | a pair never stored misses the response cache, in every interleaving |
| RpcLockstep.StoreNeverOverwrites | crates/nexus-cloud-client/src/response_cache.rs:123-127 | the overwrite branch is unreachable from the dispatcher |
| RpcLockstep.OverlapBreaksLockstep | crates/nexus-cloud-client/src/dispatcher.rs:342-362 | wherever two calls overlap at capacity one, storing in reverse order leaves a success remembered but not cached |
| RpcScenarios.BareSuccessIsRefusedLater | crates/nexus-cloud-client/src/dispatcher.rs:365-382 | a run: a success without a request id is remembered, never cached, and its retry refused |
| RpcScenarios.OverlapLosesSuccess | crates/nexus-cloud-client/src/dispatcher.rs:342-362 | a run: two overlapping calls store in reverse order, and the retry of a success is refused |
| RpcScenarios.SharedTokenIdRunsTwice | crates/nexus-cloud-client/src/actor_token.rs:690-704 | a run within all rate and time bounds where two tokens share an id and one pair starts the handler twice |
| RpcScenarios.EvictionRunsTwice | crates/nexus-cloud-client/src/jti_cache.rs:112-118 | a run with one token and no rate bound where an evicted pair starts the handler again |
| RpcScenarios.FreshTokenIdRunsAgain | crates/nexus-cloud-client/src/dispatcher.rs:322-329 | a run where one request id under two token ids starts the handler twice |
| RpcDispatcher.Dispatcher.Dispatch | crates/nexus-cloud-client/src/dispatcher.rs:294-383 | one call to completion is a sequential run of the protocol with the outcome of the decision table, read from the two caches as they were: token missing, refused for its reason, forbidden, cached bytes, replayed, off policy, or one handler run and its answer; one audit record exactly for a token-bearing handler run |
| RpcDispatcher.Dispatcher.Screen | crates/nexus-cloud-client/src/dispatcher.rs:330-341 | ends the call exactly as the decision table says of token, body check and lookup, or leaves exactly the rest of the table to decide |
| RpcDispatcher.Dispatcher.AdmitOnce | crates/nexus-cloud-client/src/dispatcher.rs:342-353 | atomic admission or refusal as a replay |
| RpcDispatcher.Dispatcher.CheckSystemSubAndAudit | crates/nexus-cloud-client/src/dispatcher.rs:387-405 | refuses as the decision table says and then audits nothing, or adds the one audit record of the call; no handler start |
| RpcDispatcher.Dispatcher.RunHandler | crates/nexus-cloud-client/src/dispatcher.rs:354-382 | exactly one start; the outcome is the handler's answer |
| RpcDispatcher.Dispatcher.StoreResponse | crates/nexus-cloud-client/src/dispatcher.rs:361-362 | stores the returned bytes once, under the signed token id and the request id |
| Lexer.OpaqueIff | xtask/src/span_cardinality.rs:208-272 | what starts at an offset and where it ends, over characters, both directions: line and block comments, strings, raw strings with their hash signs, escaped and plain character literals; a lone apostrophe starts nothing |
| Lexer.ByteClasses | xtask/src/span_cardinality.rs:202-297 | the identifier, opener and closer classes by their characters |
| Lexer.SkipString | xtask/src/span_cardinality.rs:275-284 | ends past the first quote with an even run of backslashes before it, or with the input when there is none |
| Lexer.SkipBlockComment | xtask/src/span_cardinality.rs:218-233 | ends where the nesting of comment marks first returns to zero, or with the input |
| Lexer.StringEndIsFirstUnescaped | xtask/src/span_cardinality.rs:275-284 | the same of the string-end function, for every offset |
| Lexer.BlockEndIsFirstLevel | xtask/src/span_cardinality.rs:218-233 | the same of the comment-end function, at every depth |
| Lexer.NestingIsCount | xtask/src/span_cardinality.rs:218-233 | the nesting of a comment is the number of opening marks read so far less the number of closing ones |
| Lexer.LineEndIsFirstNewline | xtask/src/span_cardinality.rs:211-217 | a line comment runs exactly to the first newline |
| Lexer.RawCloseIsFirst | xtask/src/span_cardinality.rs:235-255 | a raw string closes at the first quote with enough hash signs |
| Lexer.SkipOpaque | xtask/src/span_cardinality.rs:208-272 | the lexer loop answers `e` exactly when a comment or literal starts at the offset and ends before `e`, in range for every offset |
| Lexer.NoOvershoot | xtask/src/span_cardinality.rs:208-272 | a token starting before a boundary ends at or before it |
| Lexer.ReachBetween | xtask/src/span_cardinality.rs:290-294 | of two boundaries of one tokenization the later is reached from the earlier |
| Brackets.NetIsCount | xtask/src/span_cardinality.rs:287-308 | the depth between two boundaries is the number of opening brackets in code less the number of closing ones |
| Brackets.MatchingClose | xtask/src/span_cardinality.rs:287-308 | the first boundary where depth over code tokens returns to zero; nothing exactly when there is none; the counter never underflows |
| Brackets.MatchUnique | xtask/src/span_cardinality.rs:287-308 | a bracket has at most one match |
| Brackets.MatchedInside | xtask/src/span_cardinality.rs:287-308 | what lies between a bracket and its match is a balanced region |
| Brackets.ClosesInside | xtask/src/span_cardinality.rs:287-308 | a bracket opened in a balanced region closes in it |
| Brackets.SplitArgs | xtask/src/span_cardinality.rs:311-334 | cuts a balanced region exactly at its own commas; stays in range on any range |
| Brackets.PieceIsRegion | xtask/src/span_cardinality.rs:311-334 | every piece is balanced and aligned |
| Brackets.TilesAreComplete | xtask/src/span_cardinality.rs:311-334 | no piece is missed |
| Brackets.PiecesRebuildRegion | xtask/src/span_cardinality.rs:311-334 | the pieces joined by commas are the region's bytes |
| Marker.LineIsCount | xtask/src/span_cardinality.rs:419-425 | the line of an offset is one more than the number of newlines before it; offset 0 is on line 1 |
| Marker.LineOfCounts | xtask/src/span_cardinality.rs:419-425 | the line grows by one exactly behind a newline |
| Marker.LineIsText | xtask/src/span_cardinality.rs:447-450 | the listed line of any offset is the text between the newlines around it, less a carriage return before the closing one |
| Marker.LineIsListed | xtask/src/span_cardinality.rs:419-425 | the line of any byte but a newline is listed, although a final empty line is dropped |
| Marker.MarkersDoNotOverlap | xtask/src/span_cardinality.rs:77 | the marker has no self-overlap |
| Marker.SpaceIff | xtask/src/span_cardinality.rs:433 | a white-space width is found exactly when the UTF-8 of a Unicode white-space character of that width leads the text |
| Marker.TrimDropsWhiteSpace | xtask/src/span_cardinality.rs:433 | what trimming drops is a sequence of white-space characters, and none leads what is left |
| Marker.MarkerSpelling | xtask/src/span_cardinality.rs:77 | the marker text |
| Marker.StartsWithKeyIff | xtask/src/span_cardinality.rs:433-442 | the key test holds exactly when the text is white space, the key, and something that does not go on with an identifier character or a dot |
| Marker.MarkerNamesKey | xtask/src/span_cardinality.rs:429-445 | the resuming search accepts exactly when some occurrence names the key at a token boundary |
| Marker.HasMarker | xtask/src/span_cardinality.rs:447-450 | suppressed by its own line or the one above |
| FieldArgs.SkipTrivia | xtask/src/span_cardinality.rs:337-348 | the loop equals the trivia function |
| ArgForms.TriviaIff | xtask/src/span_cardinality.rs:337-348 | skipping ends exactly where white space and comments, all of them, end |
| FieldArgs.TriviaAligned | xtask/src/span_cardinality.rs:337-348 | in an aligned range trivia ends on a boundary inside it and crosses no bracket |
| FieldArgs.NameWalkAligned | xtask/src/span_cardinality.rs:396-398 | the name walk stays on the tokenization exactly when it does not stop inside a raw string |
| FieldArgs.ClassifyArg | xtask/src/span_cardinality.rs:363-417 | the classifier's walk equals the classification function |
| ArgForms.KindIff | xtask/src/span_cardinality.rs:363-417 | the classification is exactly the form the argument has, said over characters: braced group, message, quoted or dotted field with its value start, or anything else |
| ArgForms.LastSegmentIff | xtask/src/span_cardinality.rs:414-416 | a dotted key is matched on the dot-free end that is the whole key or follows a dot |
| FieldArgs.KindAligned | xtask/src/span_cardinality.rs:363-417 | every offset it returns is a boundary of the argument; a group is a smaller balanced region |
| FieldArgs.RawStringIsNeverMessage | xtask/src/span_cardinality.rs:380-409 | a raw string argument is classified as anything else |
| FieldArgs.FindValueNeedle | xtask/src/span_cardinality.rs:454-471 | the first needle in code on identifier boundaries, nothing exactly when there is none |
| FieldArgs.NeedleIff | xtask/src/span_cardinality.rs:462-465 | what a needle is: its ten characters before the end, no identifier character on either side |
| SpanFields.Report | xtask/src/span_cardinality.rs:493-498 | adds the finding of an offset, with its counted line, exactly when no marker on that line or the one above excuses it; the line index is in range |
| SpanFields.CheckValue | xtask/src/span_cardinality.rs:516-523 | the value rule adds exactly the first needle of the range |
| SpanFields.CheckField | xtask/src/span_cardinality.rs:492-501 | key rule and value rule of one field |
| SpanFields.CheckArg | xtask/src/span_cardinality.rs:488-524 | one argument adds exactly what the declarative rule flags |
| SpanFields.CheckArgs | xtask/src/span_cardinality.rs:476-525 | a list adds exactly what the declarative rule flags; recursion into groups shrinks |
| SpanFields.FlagsAligned | xtask/src/span_cardinality.rs:476-525 | everything flagged is a boundary inside the list |
| SpanFields.FlagsAdditive | xtask/src/span_cardinality.rs:493 | a split key list splits what is flagged |
| SourceScan.CollectGroups | xtask/src/span_cardinality.rs:587-618 | finds exactly the `instrument` word and the outermost `fields(...)` groups of an attribute body |
| SourceScan.ReadAttribute | xtask/src/span_cardinality.rs:578-624 | hands on exactly those groups, and only with `instrument` |
| SourceScan.ReadMacro | xtask/src/span_cardinality.rs:549-558 | finds the delimiters exactly when the word is a tracing macro with closed delimiters |
| SourceScan.MacroNameIff | xtask/src/span_cardinality.rs:125-138 | the twelve macros by name, and which of them open spans |
| SourceScan.WordIff | xtask/src/span_cardinality.rs:549-554 | the word read at an offset is the longest identifier there, and only where none is going on |
| SourceScan.ScanSource | xtask/src/span_cardinality.rs:529-576 | checks exactly the lists of tracing macros and instrument attributes outside attribute brackets; the report is exactly what they flag, each on its counted line, sorted, each once |
| SourceScan.SortUnique | xtask/src/span_cardinality.rs:572-574 | strictly increasing with the same elements |
| SourceScan.KeyLessIff | xtask/src/span_cardinality.rs:573 | keys are ordered by their first differing byte, a proper prefix first |
| SourceScan.ReportsAreAligned | xtask/src/span_cardinality.rs:529-576 | every reported offset is a token boundary from offset 0, on a listed line |
| SourceScan.ReportMeansFlagged | xtask/src/span_cardinality.rs:529-576 | a finding is in the report exactly when it is the unexcused line of a flagged offset |
| SourceScan.KeysAreAdditive | xtask/src/span_cardinality.rs:476-525 | flagged offsets for two key lists together are the union |
| SourceScan.ReportAdditive | xtask/src/span_cardinality.rs:529-576 | so are the reports |
| UplinkSafety.Invariant | crates/nexus-cloud-client/src/tunnel.rs:315-419 | every state of every run keeps conservation, bounds and honest answers |
| UplinkSafety.TiersConserve | crates/nexus-cloud-client/src/tunnel.rs:305-419 | accepted frames are those disposed of, then the one being written, then the queue, in order, one per call |
| UplinkSafety.NothingIsLostWhileAlive | crates/nexus-cloud-client/src/tunnel.rs:328-340 | while the pump lives an accepted frame was written, could not be serialised, or is still at its place |
| UplinkSafety.FailedWriteIsLast | crates/nexus-cloud-client/src/tunnel.rs:333-336 | a failed write is the tier's last outcome and the pump has stopped |
| UplinkSafety.OneFailedWrite | crates/nexus-cloud-client/src/tunnel.rs:333-336 | on all tiers together at most one frame is lost to a failed write |
| UplinkSafety.AnswersAreHonest | crates/nexus-cloud-client/src/tunnel.rs:503-545 | accepted exactly when the call ended as sent, and then in the lane of its kind; only sightings and live-view frames are ever shed, and they are answered at once and never time out; closed only after the stop |
| UplinkSafety.LanesHoldTheirKinds | crates/nexus-cloud-client/src/tunnel.rs:82-90 | in every run the bulk lane has only ever held sightings, batches and live-view frames, the alert lane alerts and clip receipts, the control lane everything else; at most 32, 64 and 64 are queued |
| UplinkSafety.ShedIffFull | crates/nexus-cloud-client/src/tunnel.rs:515-521 | in every reachable state an offer is shed exactly when it is a sighting, a batch of them or a live-view frame, 32 frames are queued and the pump lives |
| UplinkSafety.WireIsFaithful | crates/nexus-cloud-client/src/tunnel.rs:108-116 | the wire carries the offered envelope; only heartbeats differ, only in their two stamps |
| UplinkSafety.NoOvertaking | crates/nexus-cloud-client/src/tunnel.rs:317-416 | before any choice ranking below a tier, all frames that tier had queued were taken |
| UplinkSafety.ChoiceIsFirstReady | crates/nexus-cloud-client/src/tunnel.rs:317-416 | every choice of every run took a branch that was ready while close, control, senders gone, alert, inbound and bulk above it, in that order, were not |
| UplinkSafety.RunMoves | crates/nexus-cloud-client/src/tunnel.rs:317-416 | over a run a tier's progress grows by exactly what was taken from it |
| UplinkSafety.ControlMonopoly | crates/nexus-cloud-client/src/tunnel.rs:317-340 | while control frames wait every choice takes one |
| UplinkSafety.ControlIsPrompt | crates/nexus-cloud-client/src/tunnel.rs:317-416 | a control frame with k ahead leaves the queue within k + 1 choices under any load, and is disposed of once the pump is back at its select |
| Connection.Tunnel.constructor | crates/nexus-cloud-client/src/tunnel.rs:305-313 | starts empty, pumping and valid |
| Connection.Tunnel.SendEnvelope | crates/nexus-cloud-client/src/tunnel.rs:505-524 | a sighting or live-view frame is answered at once: closed after the stop, shed at 32 queued frames, else sent and queued last; every other body starts to wait |
| Connection.Tunnel.Resolve | crates/nexus-cloud-client/src/tunnel.rs:533-545 | a waiting call is refused exactly when the pump stopped, sent exactly when its lane has fewer than 64 frames, and else timed out |
| Connection.Tunnel.TakeOldest | crates/nexus-cloud-client/src/tunnel.rs:328-340 | takes the head of the lane; a control heartbeat is stamped twice with that instant, nothing else changes; what does not serialise is dropped |
| Connection.Tunnel.TakeMessage | crates/nexus-cloud-client/src/tunnel.rs:357-399 | the oldest message: an envelope is handed over while the inbox is open and holds fewer than 32, a ping is answered, a close, an error or the end stops the pump |
| Connection.Tunnel.SelectOnce | crates/nexus-cloud-client/src/tunnel.rs:317-416 | one select, branch by branch, extends the object's run by that step |
| Connection.Tunnel.FinishWrite | crates/nexus-cloud-client/src/tunnel.rs:332-337 | a write ends in its tier's history; a failed one stops the pump |
| Connection.Tunnel.FinishAnswer | crates/nexus-cloud-client/src/tunnel.rs:319-323 | a close frame written stops the pump, a pong returns it to its select |
| Connection.Tunnel.TakeInbound | crates/nexus-cloud-client/src/tunnel.rs:357-378 | the consumer gets the oldest inbound envelope |
| Connection.Tunnel.DropField | crates/nexus-cloud-client/src/tunnel.rs:180-194 | the owner drops the fields in order |
| Connection.Tunnel.Pump | crates/nexus-cloud-client/src/tunnel.rs:315-419 | the object under any schedule: every tier conserved and bounded, nothing accepted lost while it lives, and a control frame disposed of as soon as it is due |
| HalfBits.SignIsKept | crates/nexus-cloud-client/src/sink.rs:573-591 | the sign survives for every pattern |
| HalfFloat.SpecialsAreKept | crates/nexus-cloud-client/src/sink.rs:578-581 | not-a-number exactly from not-a-number, always with mantissa 512; infinity stays |
| HalfFloat.OutOfRange | crates/nexus-cloud-client/src/sink.rs:582-588 | infinity exactly from 2^16, zero exactly below 2^-14, normal exactly between |
| HalfFloat.TruncatesInRange | crates/nexus-cloud-client/src/sink.rs:589-590 | toward zero with relative error below 2^-10 |
| HalfFloat.GreatestNotAbove | crates/nexus-cloud-client/src/sink.rs:589-590 | the result is the greatest binary16 magnitude not above the input |
| HalfFloat.EncodingIsMonotone | crates/nexus-cloud-client/src/sink.rs:573-591 | order is preserved over all patterns but not-a-numbers, infinities included |
| HalfFloat.ExactOnNormals | crates/nexus-cloud-client/src/sink.rs:573-591 | a value some binary16 normal denotes encodes to that pattern |
| HalfFloat.NormalsRoundTrip | crates/nexus-cloud-client/src/sink.rs:573-591 | every binary16 normal is widened exactly and encoded back |
| HalfFloat.UnitError | crates/nexus-cloud-client/src/sink.rs:573-591 | components in [-1, 1] are off by less than 2^-11 |
| HalfFloat.PackEmbedding | crates/nexus-cloud-client/src/sink.rs:522-535 | a little-endian reader gets the codes back in order, in both formats |
| HalfFloat.LittleEndian16 | crates/nexus-cloud-client/src/sink.rs:523-528 | the value of a 16-bit code is its first byte plus 256 times its second |
| HalfFloat.LittleEndian32 | crates/nexus-cloud-client/src/sink.rs:529-535 | the bytes of a 32-bit code are its own, low one first |
| HalfFloat.UnitVectorsSurvive | crates/nexus-cloud-client/src/sink.rs:522-535 | what is read from a packed unit vector is within 2^-11 of each component |
| Sampling.FirstRuleDecides | crates/nexus-cloud-client/src/trace_layer.rs:84-105 | the first rule whose prefix fits decides alone; none keeps |
| Sampling.SameRuleSameFate | crates/nexus-cloud-client/src/trace_layer.rs:84-105 | names under one rule share their fate in a trace |
| Sampling.RaisingRatiosKeeps | crates/nexus-cloud-client/src/trace_layer.rs:88-103 | larger ratios keep every trace that was kept |
| Sampling.EightDigitBucket | crates/nexus-cloud-client/src/trace_layer.rs:112-119 | eight hexadecimal digits give their big-endian value modulo 10000 |
| Sampling.SignedBucket | crates/nexus-cloud-client/src/trace_layer.rs:116 | a plus sign and seven digits give the value of the seven modulo 10000 |
| Sampling.MalformedBucket | crates/nexus-cloud-client/src/trace_layer.rs:113-118 | a short or malformed id gives bucket 0 |
| Sampling.SampledIff | crates/nexus-cloud-client/src/trace_layer.rs:88-102 | a ratio keeps exactly the buckets whose number, counted from one, is at most that share of 10000 |
| Sampling.ShouldShipIff | crates/nexus-cloud-client/src/trace_layer.rs:84-105 | exported exactly when the name is not dropped and the first rule whose prefix begins the name, if any, keeps the bucket |
| SpanTree.Invariant | crates/nexus-cloud-client/src/trace_layer.rs:211-294 | every reachable registry keeps the tree, listing and export invariants |
| SpanTree.ParentIsNearest | crates/nexus-cloud-client/src/trace_layer.rs:215-225 | in every reachable state an exported span names as parent the exported ancestor that every other one lies above, and shares its trace; it names none exactly when there is none |
| SpanTree.OneRootPerTrace | crates/nexus-cloud-client/src/trace_layer.rs:215-225 | with fresh ids each trace has exactly one parentless span |
| SpanTree.ChildrenLeaveFirst | crates/nexus-cloud-client/src/trace_layer.rs:271-294 | a span is exported at most once and before its parent |
| SpanTree.NothingTaggedIsLost | crates/nexus-cloud-client/src/trace_layer.rs:211-294 | in every run whatever was selected for export belongs to an open span or was exported |
| SpanTree.RuleKeepsSubtree | crates/nexus-cloud-client/src/trace_layer.rs:227-235 | below an exported span everything under the same rule and not dropped by name is exported in the same trace |
| SpanTree.RerootsIffNothingAbove | crates/nexus-cloud-client/src/trace_layer.rs:215-231 | a span starts its own trace exactly when nothing above it is exported |
| SpanTree.DroppedSpanIsSkipped | crates/nexus-cloud-client/src/trace_layer.rs:227-231 | a concrete run in which a child of a dropped span keeps the trace above |
| SpanTree.TraceLayer.FindNearest | crates/nexus-cloud-client/src/trace_layer.rs:217-224 | the walk up finds the nearest data |
| SpanTree.TraceLayer.OnNewSpan | crates/nexus-cloud-client/src/trace_layer.rs:211-253 | the hook extends the run by one registration; the span gets its nearest ancestor's trace and id or a fresh trace, exactly when the rules export it; no other span changes |
| SpanTree.TraceLayer.OnClose | crates/nexus-cloud-client/src/trace_layer.rs:271-294 | the hook exports exactly one record with the closed span's trace, ids and name, or none, and extends the run; an unknown span changes nothing |
| SpanTree.TraceLayer.Run | crates/nexus-cloud-client/src/trace_layer.rs:207-295 | the layer under any schedule performs that run and keeps the tree |
| TraceUploader.Invariant | crates/nexus-cloud-client/src/trace_uploader.rs:380-439 | every interleaving keeps conservation, batch and queue bounds and the counter |
| TraceUploader.NothingIsLost | crates/nexus-cloud-client/src/trace_uploader.rs:380-439 | batches, buffer and queue concatenate to the accepted spans; batches hold 1 to the batch size, short ones only when no span was waiting; the counter counts full-queue refusals |
| TraceUploader.ExitDrainsAll | crates/nexus-cloud-client/src/trace_uploader.rs:406-411 | at exit everything accepted was handed over |
| TraceUploader.StoppedOnlyWhenAborted | crates/nexus-cloud-client/src/trace_uploader.rs:249 | in every run a stopped refusal means the receiver was dropped under the handles |
| TraceUploader.RefusalMeans | crates/nexus-cloud-client/src/trace_uploader.rs:242-251 | in every reachable state a push is stopped exactly after an abort, full exactly at the configured capacity, zero counting as one, and accepted exactly otherwise |
| TraceUploader.TickFlushes | crates/nexus-cloud-client/src/trace_uploader.rs:414-416 | whenever the timer fires the buffer becomes the last batch and is empty, and every span accepted so far has been handed over |
| TraceUploader.ReceiveMeans | crates/nexus-cloud-client/src/trace_uploader.rs:398-413 | in every reachable state a receive buffers the oldest span and hands over at the batch size, zero counting as one; at the end of the stream the rest goes and the worker exits |
| TraceUploader.SentMeans | crates/nexus-cloud-client/src/trace_uploader.rs:425-439 | a transport call that ends, well or not, changes no batch; after the last one the worker exits |
| TraceUploader.ShutdownEnds | crates/nexus-cloud-client/src/trace_uploader.rs:395-418 | after the handles are gone the worker ends within a bounded number of steps and is never stuck |
| TraceUploader.Uploader.PushSpan | crates/nexus-cloud-client/src/trace_uploader.rs:242-251 | queued last, or refused with the reason and counted |
| TraceUploader.Uploader.FlushBuffer | crates/nexus-cloud-client/src/trace_uploader.rs:425-439 | the buffer moves into one batch; no empty batch |
| TraceUploader.Uploader.Receive | crates/nexus-cloud-client/src/trace_uploader.rs:398-413 | the receive branch keeps the invariant |
| TraceUploader.Uploader.Run | crates/nexus-cloud-client/src/trace_uploader.rs:380-421 | the loop under any schedule is a run of the machine |

## Left out

- Ed25519, base64, JSON and TLS are foreign code; they are function parameters here.
- The literal rows of `rpc_permissions` and `camera_rpc_permissions`: one table, a parameter of the verifier.
- `dispatch_envelope`, `decode_payload_body` and `derive_method_name`: envelope wrapping around the modelled dispatch; the derived name is part of the call.
- The wall clock is a number that never goes back; token times are whole seconds.
- The handler is a function of its arguments in `RpcDispatcher`; in the step system its result is arbitrary.
- Cleared calls on the response-cache path pass the body check a second time in the step system; the check is a function of the same inputs, so it cannot differ.
- GlobalAtMostOnce: assumes that one token id stands for one `iat` and `exp`, which the issuer provides and the edge cannot check.
- Which of several callers waiting for one queue is admitted first, and the length of the enqueue timeout. `Resolve` decides by the queue alone; the step system lets a waiting call time out at any moment.
- TCP settings, TLS setup, the side channel, reconnects and the inbound consumer's work.
- Spans' attributes, status, start and end times; `on_record` changes only those.
- Not-a-number sampling ratios: ratios are real numbers; binary64 rounding of `ratio * 10_000` is not modelled.
- OneRootPerTrace: freshness of random trace and span ids is assumed of every registration.
- The dropped-span counter is unbounded; the source's has 64 bits.
- The transport's result: a failed batch is logged and dropped, so a batch counts as handed over either way.
- File discovery and printing of the scanner's command, and UTF-8 boundaries of slices: sources are byte sequences.
- Configuration, bus, outbox, entitlements, enrollment, shell byte pump, generated envelope shapes and the Python, UI and build files.
