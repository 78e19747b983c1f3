# hypredict server core, in Dafny

This project models the request-admission and notification layer of the
hypredict prediction-market server (`server/server.js`) and proves properties
of it. It covers four parts:

- **The per-key, per-minute rate limiter** (`checkRateLimit` and the global
  `RateLimit` map), in `rate_limit.dfy`. A counter is addressed by
  `"<key>:<minute>"`. A call is admitted, and bumps the counter, exactly when
  the counter is below the limit. A refused call changes nothing. No counter is
  ever evicted. The minute index is an input.
- **Telegram Mini App `initData` verification** (`verifyTelegramAuth`), in
  `telegram_auth.dfy`, with lower-case hex in `hex.dfy`. The decoded query pairs
  lose their `hash` entries. The rest are stably sorted by name under the
  engine's `localeCompare`, which is a comparator parameter here. They are
  rendered `name=value` and joined with line breaks. The request passes exactly
  when its first `hash` value is the hex of
  HMAC(HMAC("WebAppData", token), data-check string). HMAC-SHA-256
  (section 2 of RFC 2104) is left uninterpreted.
- **The WebSocket registry**, in `realtime.dfy`. It covers the `connections`
  map from user id to socket, the connection handler that admits or closes a
  socket, each socket's close listener, the targeted `broadcast`, and the
  fan-out of `/resolve` to every OPEN client. Sockets have identities, so the
  effect of an old socket's close listener on a newer mapping can be stated.
- **The HTTP handlers' guard ordering and upserts**, in `routes.dfy`: `/keygen`,
  `/market/create`, `/markets/:id`, `/prediction`, `/positions/:userId` and
  `/resolve`. Each handler is one atomic step. Storage is three maps:
  - key records by user id;
  - markets by market id;
  - predictions by (user id, market id).

  Storage availability, the minute index and the random bytes are inputs.

The state that the source mutates is modelled as classes:

- `RateLimit.RateLimiter` holds the counter map.
- `Realtime.Hub` holds `connections`, the close listeners, `wss.clients`,
  `readyState` and a log of every `ws.send`.
- `Routes.Server` holds the stored rows.

The methods that change the limiter and the hub are proved against pure
functions: `CheckRateLimit` against `Admit`, `OnConnection` against `Register`,
`OnClose` against `Close`, `Broadcast` against `Targeted`, and `NotifyAllOpen`
against `FanOut`. The properties are lemmas about those functions. `Hub.Accept`
and the `Server` handlers state their new state and response directly, and the
handlers reuse `Admit`, `FanOut`, `PositionsOf` and `MarkResolved`.

A few facts about the code that shape the model:

- A refused call does not increment the counter (server/server.js:33).
- No counter is ever removed, so old minutes stay in the map (server/server.js:26-37).
- The pairs are sorted with `localeCompare` (server/server.js:49).
- The hash is compared with plain `===` (server/server.js:56).

## Model

| member | source | states |
|---|---|---|
| RateLimit.Admit | server/server.js:27-37 | A call is admitted iff the counter is below the limit. A refused call leaves the map unchanged. An admitted call raises that counter by one, never past the limit. No other counter moves, and no counter is removed or lowered. |
| RateLimit.RateLimiter.CheckRateLimit | server/server.js:26-37 | The in-place update of the global map returns the verdict and leaves the map that `Admit` gives for the counter `${key}:${minute}`. |
| RateLimit.RepeatedCalls | server/server.js:32-35 | Starting from count c, the i-th of n successive calls on one counter is admitted iff c + i < limit. The final count is c + n capped at the limit (c itself when already at or over it). The map only grows. |
| RateLimit.ThreePerMinute | server/server.js:27-36 | With limit 3, five calls in one minute give true, true, true, false, false, and the first call of the next minute is admitted. |
| RateLimit.Count | server/server.js:32 | The read with default 0: a counter that was never bumped reads as zero, any other reads as stored. |
| RateLimit.CounterKey | server/server.js:30 | The counter key is `${key}:${minute}`, with ':' right after the key. `CounterKeyInjective` proves that distinct (key, minute) pairs give distinct keys. |
| RateLimit.Decimal | server/server.js:29-30 | The minute index prints as a non-empty run of decimal digits, one digit exactly below 10. |
| RateLimit.DecimalInjective | server/server.js:30 | Distinct minute indices print differently. |
| RateLimit.CounterKeyInjective | server/server.js:29-30 | Distinct (key, minute) pairs never share a counter, even when the key contains ':'. |
| RateLimit.OtherCountersUntouched | server/server.js:30-35 | A call on one (key, minute) leaves every other (key, minute) counter as it was, so a new minute starts from zero. |
| RateLimit.RepeatedStaysOnOneCounter | server/server.js:30-35 | Any number of calls on one (key, minute) leave every other (key, minute) counter unchanged. |
| Routes.KeygenCounter | server/server.js:93 | The `/keygen` counter is the user id behind the prefix `bot:`. |
| Routes.PredictionCounter | server/server.js:175 | The `/prediction` counter is the user id behind the prefix `user:`. |
| Routes.KeygenAndPredictionCountersDisjoint | server/server.js:93 | The `bot:` counters of `/keygen` and the `user:` counters of `/prediction` (line 175) never coincide, whatever the user ids and minutes. |
| Hex.ToHex | server/server.js:54 | `digest('hex')` yields two characters per byte. |
| Hex.FromHexToHex | server/server.js:54 | Hex encoding is decodable: decoding the hex of any bytes gives those bytes. |
| Hex.ToHexFromHex | server/server.js:54 | Any text that decodes is the lower-case hex of what it decodes to. |
| Hex.ToHexInjective | server/server.js:54 | Distinct digests have distinct hex texts. |
| TelegramAuth.FirstValue | server/server.js:45 | `params.get` is None iff no pair has the name. Otherwise it is the value of the first pair with that name. |
| TelegramAuth.FirstValueOfDistinct | server/server.js:45 | With distinct names, `get` returns the value paired with the name. |
| TelegramAuth.FirstValueOrderIndependent | server/server.js:45 | With distinct names, `get` gives the same answer under any permutation of the pairs. |
| TelegramAuth.WithoutHash | server/server.js:46 | `params.delete('hash')` keeps a pair iff it is not named `hash`. Its counts and order are stated by the two lemmas below. |
| TelegramAuth.WithoutHashCounts | server/server.js:46 | Every pair not named `hash` is kept exactly as often as it occurred, and no `hash` pair is kept. |
| TelegramAuth.WithoutHashAppend | server/server.js:46 | Deleting `hash` distributes over concatenation, so the kept pairs stay in their input order. |
| TelegramAuth.WithoutHashDistinct | server/server.js:46 | Deleting `hash` keeps names distinct. |
| TelegramAuth.InsertByName | server/server.js:48-49 | One insertion step of the sort adds one pair. Its placement is stated by `InsertPermutes`, `InsertSorted` and `InsertSameRank`. |
| TelegramAuth.SortByName | server/server.js:48-49 | The sort keeps the number of pairs. Its meaning is stated by `SortPermutes`, `SortSorted`, `SortStable` and `StableSortIsUnique`. |
| TelegramAuth.InsertPermutes | server/server.js:48-49 | Inserting a pair into a sorted run adds exactly that pair. |
| TelegramAuth.SortPermutes | server/server.js:48-49 | The sort is a permutation of its input. |
| TelegramAuth.InsertSorted | server/server.js:49 | Under a total preorder, insertion keeps a run sorted by name. |
| TelegramAuth.SortSorted | server/server.js:49 | Under a total preorder, the sort orders the pairs by name. |
| TelegramAuth.InsertSameRank | server/server.js:48-49 | Inserting x into a sorted run puts it after every pair ranked alike with it. |
| TelegramAuth.SortStable | server/server.js:48-49 | The sort is stable: for every name k, the pairs that rank alike with k keep their input order. |
| TelegramAuth.SortedSameRanksEqual | server/server.js:48-49 | Two sorted sequences that agree on the order within every rank are equal. |
| TelegramAuth.StableSortIsUnique | server/server.js:48-49 | Any sorted sequence that keeps every rank in input order equals the model's sort, so any stable sort gives the same data-check string. |
| TelegramAuth.SameRankOfDistinct | server/server.js:48-49 | Under a total order with distinct names, a pair is the only one of its rank. |
| TelegramAuth.Line | server/server.js:50 | `${key}=${value}` is the name, '=', then the value. |
| TelegramAuth.Render | server/server.js:50-51 | The joined lines are empty exactly when there are no pairs. `RenderRoundTrip` proves that they read back to the pairs. |
| TelegramAuth.DataCheckString | server/server.js:44-51 | The data-check string is empty exactly when every pair is a `hash` pair. Its contents are stated by `DataCheckStringContents`. |
| TelegramAuth.LineOfWellFormed | server/server.js:50 | A pair whose name has no '=' and which has no line break renders as one line that reads back as the pair. |
| TelegramAuth.RenderRoundTrip | server/server.js:50-51 | Reading back the `name=value` lines joined with '\n' gives the rendered pairs. |
| TelegramAuth.DataCheckStringContents | server/server.js:44-51 | Read back, the data-check string holds every non-`hash` pair exactly as often as the input does, no `hash` pair, and is sorted by name. |
| TelegramAuth.DataCheckStringDeterminesClaims | server/server.js:44-51 | Well-formed claim lists with the same data-check string hold the same non-`hash` pairs, so adding, dropping or altering a claim changes the signed string. |
| TelegramAuth.DataCheckStringOrderIndependent | server/server.js:44-51 | Under a total order, distinct-named pairs give the same data-check string under any permutation. |
| TelegramAuth.SecretKey | server/server.js:53 | The signing key is HMAC-SHA-256 keyed with "WebAppData" over the bot token. |
| TelegramAuth.Digest | server/server.js:53-54 | The expected digest is HMAC-SHA-256 under that key over the UTF-8 data-check string. |
| TelegramAuth.DigestDeterminedByDataCheckString | server/server.js:54 | The claims reach the digest only through the data-check string. |
| TelegramAuth.VerifyClaims | server/server.js:41-56 | Rejects when the bot token is unset or empty, and when no `hash` pair is present. When it accepts, a `hash` pair carrying the hex of the expected HMAC is among the pairs. |
| TelegramAuth.VerifyTelegramAuth | server/server.js:40-57 | An unset or empty bot token rejects every `initData`. |
| TelegramAuth.AcceptsIffHashDecodesToDigest | server/server.js:53-56 | Accepts iff the token is set, a `hash` value is present, and that value is hex text that decodes to HMAC(HMAC("WebAppData", token), data-check string). |
| TelegramAuth.VerifyClaimsOrderIndependent | server/server.js:44-56 | Under a total order, with distinct names, the verdict does not depend on the order of the pairs. |
| Realtime.Register | server/server.js:65-76 | A failed check, or a user id that is absent or falsy, leaves the registry unchanged. Otherwise the user id maps to the new socket, every other user keeps its socket, and the socket records the user its close listener will delete. |
| Realtime.Close | server/server.js:75 | A close listener deletes the user id it captured and changes no other entry. A socket without a listener changes nothing. |
| Realtime.NewerSocketReplacesOlder | server/server.js:73-74 | After two admissions for one user, only the newer socket is mapped, and a targeted send reaches it alone. |
| Realtime.ClosingReplacedSocketUnmapsUser | server/server.js:74-75 | When the older, replaced socket closes, the user loses its mapping although the newer socket is still connected, and targeted sends to that user stop. |
| Realtime.Targeted | server/server.js:80-85 | `broadcast` sends at most once. It sends exactly once iff the user is mapped and the mapped socket is OPEN, and only to that socket. |
| Realtime.FanOut | server/server.js:230-234 | The resolve fan-out sends no more messages than there are clients, each to a client that is OPEN. `FanOutOncePerOpenClient` gives the count per socket. |
| Realtime.FanOutOncePerOpenClient | server/server.js:230-234 | Each socket receives exactly one fan-out message if it is an OPEN client and none otherwise. |
| Realtime.FanOutSkipsClientNotOpen | server/server.js:230-234 | With three clients, one of them not OPEN, the fan-out sends twice, to the two OPEN ones, in client order. |
| Realtime.Without | server/server.js:230 | Transport bookkeeping behind `wss.clients`: removing a closed socket keeps every other client and keeps them distinct. |
| Realtime.Hub.Accept | server/server.js:61 | Transport bookkeeping before the connection handler: a new socket joins `wss.clients` as OPEN, and the registry and the send log are unchanged. The hub invariant is kept. |
| Realtime.Hub.OnConnection | server/server.js:61-77 | A socket that fails the check is closed and the map is left alone. Otherwise the registry becomes `Register` of the old one. The hub invariant is kept. |
| Realtime.Hub.OnClose | server/server.js:75 | The socket leaves the clients and its listener acts as `Close`. The hub invariant is kept. |
| Realtime.Hub.Broadcast | server/server.js:80-85 | The send log grows by exactly `Targeted`. |
| Realtime.Hub.NotifyAllOpen | server/server.js:230-234 | The loop appends exactly `FanOut` of the clients to the send log. |
| Routes.InitDataOf | server/server.js:166 | An absent Authorization header gives no initData. A header without `tma ` is taken whole. `TmaSchemeStripped` covers the Mini App's header. |
| Routes.Server.Authenticated | server/server.js:146 | The auth guard lets a request through only with a non-empty initData when the bot token is set. The same check appears at lines 168 and 197. |
| Routes.FindFirst | server/server.js:166 | `indexOf` gives the first position where the pattern occurs, or None when it occurs nowhere. |
| Routes.ReplaceFirst | server/server.js:166 | `replace` with a string pattern changes only the first occurrence. The text before and after it is kept. |
| Routes.TmaSchemeStripped | server/server.js:166 | The header `tma <initData>` yields exactly `initData`. |
| Routes.AdminCheckAsWritten | server/server.js:222 | The guard as written passes iff the header and the variable are both undefined, or both set and equal. |
| Routes.UnsetAdminTokenAdmitsAnyone | server/server.js:222 | When ADMIN_TOKEN is unset, a request without the header passes the guard as written and is refused by the corrected guard. |
| Routes.AdminAuthorized | server/server.js:222 | The corrected guard passes only a present, non-empty token that equals the configured one. Whenever a non-empty token is configured, it agrees with the guard as written. |
| Routes.PositionsOf | server/server.js:202-210 | The positions are exactly the user's stored predictions, keyed by market id. A NULL data column stays None. |
| Routes.MarkResolved | server/server.js:227 | The update marks the named market resolved and changes no other row. It adds no row when the id is unknown. |
| Routes.Server.Keygen | server/server.js:90-114 | An empty user id gives 429 and consumes no quota. Otherwise the `bot:` counter (limit 5) is consumed first. A refusal gives 429. A database failure gives 500 after the quota is spent. Success upserts the user's key record, overwriting an earlier one, and returns the pair. |
| Routes.Server.CreateMarket | server/server.js:117-139 | A missing question or user id gives 400. A database failure or a clashing id gives 500 and stores nothing. Otherwise one market row under the hex of the 16 random bytes is added, and the link uses MINI_APP_URL. |
| Routes.Server.GetMarket | server/server.js:142-161 | Authentication comes first (401), then the database (500), then the lookup (404). Success returns the stored question and creator. |
| Routes.Server.SubmitPrediction | server/server.js:164-190 | Authentication runs before the rate counter, so an unauthenticated request gets 401 and consumes no quota. Then the `user:` counter (limit 10) is consumed. Success upserts by (user id, market id), overwriting an earlier submission. With data present it returns 201 with the hex SHA-256 of the data. With data absent, the row is written with NULL data and the hash call fails, giving 500. |
| Routes.Server.GetPositions | server/server.js:193-215 | Authentication comes first (401), then the database (500). Success returns the stored predictions of the user named in the path. |
| Routes.Server.Resolve | server/server.js:218-241 | A request refused by the corrected admin guard gets 403 and changes nothing. A database failure gives 500 and sends nothing. Success marks the market resolved, sends the resolution to every OPEN client, and returns the hex of the 32 random bytes. |

## Left out

- `encryption/index.js`, `encryption/browser.js` and the cryptographic half of `mini-app/src/utils/encryption.js` are not part of this model. They are thin wrappers over Node `crypto` and WebCrypto. These source defects are noted but not modelled:
  - The curves differ: secp256k1 at `encryption/index.js:6`, P-256 at `encryption/browser.js:7`.
  - `encryption/index.js:48-49` generates an IV that `createCipher` never uses.
  - `encryption/browser.js:63` emits an empty `authTag`.
- HMAC-SHA-256, SHA-256 and UTF-8 encoding are uninterpreted functions of `TelegramAuth.Platform`. The random market id and transaction hash are inputs (`randomId`, `randomTx`). Sealing the private key with BOT_SECRET (`createCipher(...).update(...)`, with no `.final()`) is the uninterpreted `Server.sealPrivateKey`.
- URLSearchParams decoding and `JSON.parse(params.get('user')).id` are the platform functions `parseQuery` and `userIdOf`. A missing, falsy or unparsable `user` claim reads as "".
- Routes.Server.SubmitPrediction: a missing or malformed `user` claim makes the source throw outside its try block, so no response is written. The model answers 429 without counting instead.
- Routes.Server.SubmitPrediction: `encryptedData` is either a string or absent. A non-string JSON value, which the database would store as text before hashing fails, is not modelled. An absent `marketId` goes to the insert as NULL. Whether the database accepts it depends on the schema, which is not part of this model, so it is stored under the market id "".
- Routes.Server.Keygen: sealing is the total function `sealPrivateKey`. A missing BOT_SECRET, which makes `createCipher` throw before the upsert (500, quota spent), is not modelled.
- Routes.Server.Resolve: the handler runs the corrected guard `AdminAuthorized`. As written (`AdminCheckAsWritten`, server/server.js:222), with ADMIN_TOKEN unset a request without an `x-admin-token` header also resolves the market, fans out and gets 200. The model refuses it with 403 (see Findings). The two guards agree whenever a non-empty ADMIN_TOKEN is configured.
- Realtime.Hub.OnConnection: a missing, falsy or unparsable `user` claim reads as "", which registers nothing. In the source only a missing or falsy claim does that. An unparsable one makes `JSON.parse` (server/server.js:71) throw out of the `connection` listener, leaving the open socket unregistered and the exception to the runtime. The user id from the `auth` URL parameter is taken as given. Parsing the request URL and `req.headers.host` is transport work.
- The `ws` transport itself is not modelled: handshakes, the CLOSING-to-CLOSED progression and message framing. `Hub.Accept` and `Hub.OnClose` stand in for its events. Notices are values, not their JSON text.
- Express routing, helmet, cors, the body parser and `server.listen` are not modelled. The pg pool and SQL are reduced to the three maps and a `storageUp` flag per handler. `expires_at` and the `encrypted_hash` column type are not modelled beyond the stored digest.
- Routes.Server.CreateMarket: a market id that is already stored is treated as a failed insert (500). The stored `encrypted_data` JSON is kept as its two fields.
- Time: no clock. The minute index is a parameter, and `auth_date` freshness is not checked because the code does not check it.
- Concurrency: each handler is one atomic step. Interleavings across `await` are not modelled.
- Counter eviction: the code has none, so the model has none.
- TelegramAuth.SortByName: `localeCompare` is a comparator parameter. Properties that need its ordering laws assume a total preorder, or a total order when no two names may rank alike. Which names the locale collation ranks alike is not modelled.
- TelegramAuth.VerifyClaims: the compare is plain string equality, as in the code. Timing behaviour is outside the model.
- Realtime.Notice: `outcome` is a boolean. The source forwards whatever JSON value the body carries.
- Integer widths: counters and minute indices are unbounded. `Date.now()/60000` stays far below 2^53 in practice.
- bot/bot.js, the React mini app, and the contract deployment scripts are not part of this model.

## Findings

| source | as written | input that shows it | evidently intended | confidence | as-written member | corrected member |
|---|---|---|---|---|---|---|
| server/server.js:222 | `adminToken !== process.env.ADMIN_TOKEN` refuses only when the two differ, so `undefined === undefined` passes | ADMIN_TOKEN unset and a `/resolve` request without an `x-admin-token` header | only a request carrying the configured, non-empty admin token may resolve a market | not executed | Routes.AdminCheckAsWritten | Routes.AdminAuthorized |
