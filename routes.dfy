/**
  The HTTP handlers of the server, each run as one atomic step: which guard
  runs first, which guard consumes rate quota, and what the upserts leave in
  storage.  The database is three maps: key records by user id, markets by
  market id, predictions by (user id, market id).  Whether a database call
  succeeds, the minute index and the random bytes are inputs.

  A body field that is absent, null or empty is the empty string here, except
  the `encryptedData` of `/prediction`, an `Option` because hashing it fails
  when it is absent; the environment variables and the request headers are
  `Option`s too, because the handlers compare them against `undefined`.
*/
module Routes {
  import opened Wrappers
  import opened Hex
  import opened RateLimit
  import opened TelegramAuth
  import opened Realtime

  /** Key requests per user and minute. */
  const KeygenLimit: int := 5

  /** The counter of `/keygen`: `bot:${userId}`. */
  function KeygenCounter(userId: string): (c: string)
    ensures |c| == 4 + |userId| && c[..4] == "bot:" && c[4..] == userId
  {
    "bot:" + userId
  }

  /** The counter of `/prediction`: `user:${userId}`. */
  function PredictionCounter(userId: string): (c: string)
    ensures |c| == 5 + |userId| && c[..5] == "user:" && c[5..] == userId
  {
    "user:" + userId
  }

  /** Key requests and prediction submissions never share a counter, whatever the
      user ids and minutes. */
  lemma KeygenAndPredictionCountersDisjoint(keygenUser: string, m1: nat, predictionUser: string, m2: nat)
    ensures CounterKey(KeygenCounter(keygenUser), m1) != CounterKey(PredictionCounter(predictionUser), m2)
  {
    assert CounterKey(KeygenCounter(keygenUser), m1)[0] == 'b';
    assert CounterKey(PredictionCounter(predictionUser), m2)[0] == 'u';
  }

  // ---------------------------------------------------------------------------
  // The Authorization header of `/prediction`

  predicate OccursAt(s: string, pat: string, i: nat)
  {
    i + |pat| <= |s| && s[i..i + |pat|] == pat
  }

  lemma OccursAtTail(s: string, pat: string, j: nat)
    requires 1 <= j && 1 <= |s|
    ensures OccursAt(s, pat, j) <==> OccursAt(s[1..], pat, j - 1)
  {
    if j + |pat| <= |s| {
      var here, there := s[j..j + |pat|], s[1..][j - 1..j - 1 + |pat|];
      forall t | 0 <= t < |pat| ensures here[t] == there[t] {
        assert here[t] == s[j + t] == s[1..][j - 1 + t];
      }
      assert here == there;
    }
  }

  /** `s.indexOf(pat)` for a string pattern, as an option (None for -1). */
  function FindFirst(s: string, pat: string): (r: Option<nat>)
    ensures r.Some? ==> OccursAt(s, pat, r.value) && forall j :: 0 <= j < r.value ==> !OccursAt(s, pat, j)
    ensures r.None? ==> forall j :: 0 <= j ==> !OccursAt(s, pat, j)
    decreases |s|
  {
    if |s| < |pat| then None
    else if s[..|pat|] == pat then Some(0)
    else
      var r := FindFirst(s[1..], pat);
      assert forall j: nat :: 1 <= j ==> (OccursAt(s, pat, j) <==> OccursAt(s[1..], pat, j - 1)) by {
        forall j: nat | 1 <= j ensures OccursAt(s, pat, j) <==> OccursAt(s[1..], pat, j - 1) {
          OccursAtTail(s, pat, j);
        }
      }
      if r.None? then None else Some(r.value + 1)
  }

  /** `s.replace(pat, rep)` with a string pattern: only the first occurrence, wherever it is. */
  function ReplaceFirst(s: string, pat: string, rep: string): (r: string)
    ensures FindFirst(s, pat).None? ==> r == s
    ensures FindFirst(s, pat).Some? ==>
              var i := FindFirst(s, pat).value;
              && |r| == |s| - |pat| + |rep|
              && r[..i] == s[..i] && r[i..i + |rep|] == rep && r[i + |rep|..] == s[i + |pat|..]
  {
    match FindFirst(s, pat)
    case None => s
    case Some(i) => s[..i] + rep + s[i + |pat|..]
  }

  /** `req.headers.authorization?.replace('tma ', '')`; an absent header gives
      `undefined`, read as "". */
  function InitDataOf(authorization: Option<string>): (initData: string)
    ensures authorization.None? ==> initData == ""
    ensures authorization.Some? && FindFirst(authorization.value, "tma ").None? ==> initData == authorization.value
  {
    match authorization
    case None => ""
    case Some(h) => ReplaceFirst(h, "tma ", "")
  }

  /** The Mini App's header `tma <initData>` yields exactly the initData. */
  lemma TmaSchemeStripped(initData: string)
    ensures InitDataOf(Some("tma " + initData)) == initData
  {
    var h := "tma " + initData;
    assert OccursAt(h, "tma ", 0) by { assert h[..4] == "tma "; }
    assert h[4..] == initData;
  }

  // ---------------------------------------------------------------------------
  // The admin guard of `/resolve`

  /** `adminToken !== process.env.ADMIN_TOKEN` is false: the header equals the
      variable, where an absent header and an unset variable are both `undefined`. */
  function AdminCheckAsWritten(header: Option<string>, configured: Option<string>): (passes: bool)
    ensures passes <==> ((header.None? && configured.None?)
                         || (header.Some? && configured.Some? && header.value == configured.value))
  {
    header == configured
  }

  /** As written, when ADMIN_TOKEN is unset a request that sends no token passes
      the guard, which the corrected guard refuses. */
  lemma UnsetAdminTokenAdmitsAnyone()
    ensures AdminCheckAsWritten(None, None)
    ensures !AdminAuthorized(None, None)
  {
  }

  /** The guard as intended: only a request carrying the configured, non-empty token. */
  function AdminAuthorized(header: Option<string>, configured: Option<string>): (ok: bool)
    ensures ok ==> AdminCheckAsWritten(header, configured)
    ensures ok ==> header.Some? && header.value != ""
    ensures configured.Some? && configured.value != "" ==> (ok <==> AdminCheckAsWritten(header, configured))
  {
    configured.Some? && configured.value != "" && header == configured
  }

  // ---------------------------------------------------------------------------
  // Storage rows and responses

  datatype Env = Env(botToken: Option<string>, adminToken: Option<string>, miniAppUrl: Option<string>)

  /** What `generateKeyPair()` returns. */
  datatype KeyPair = KeyPair(publicKey: string, privateKey: string)

  /** A row of `users`: the public key and the private key sealed with BOT_SECRET. */
  datatype UserKeys = UserKeys(publicKey: string, sealedPrivateKey: string)

  /** A row of `markets`; `encrypted_data` holds the question and the creator. */
  datatype Market = Market(question: string, creator: string, groupId: string, idHash: seq<byte>, resolved: bool)

  datatype Body =
    | Failure(error: string)
    | Keys(pubKey: string, privKey: string)
    | MarketLink(marketId: string, miniAppUrl: string)
    | EncryptedBlob(question: string, creator: string)
    | Transaction(txHash: string)
    | Positions(byMarket: map<string, Option<string>>)

  datatype Response = Response(status: nat, body: Body)

  const RateLimited: Response := Response(429, Failure("Rate limit exceeded"))
  const Unauthorized: Response := Response(401, Failure("Unauthorized"))
  const Forbidden: Response := Response(403, Failure("Forbidden"))
  const MissingFields: Response := Response(400, Failure("Missing required fields"))
  const MarketNotFound: Response := Response(404, Failure("Market not found"))
  const InternalError: Response := Response(500, Failure("Internal server error"))

  /** A template literal prints an unset variable as "undefined". */
  function Printed(v: Option<string>): string
  {
    if v.Some? then v.value else "undefined"
  }

  /** The predictions of one user, by market (None: a row stored with NULL data). */
  function PositionsOf(predictions: map<(string, string), Option<string>>, userId: string): (r: map<string, Option<string>>)
    ensures forall m :: m in r <==> (userId, m) in predictions
    ensures forall m :: m in r ==> r[m] == predictions[(userId, m)]
  {
    var ids := set k | k in predictions && k.0 == userId :: k.1;
    map m | m in ids :: predictions[(userId, m)]
  }

  /** `UPDATE markets SET status = 'resolved' WHERE market_id = $2`: no row, no change. */
  function MarkResolved(markets: map<string, Market>, marketId: string): (r: map<string, Market>)
    ensures r.Keys == markets.Keys
    ensures marketId in markets ==> r[marketId] == markets[marketId].(resolved := true)
    ensures forall m :: m in markets && m != marketId ==> r[m] == markets[m]
  {
    if marketId in markets then markets[marketId := markets[marketId].(resolved := true)] else markets
  }

  /** The server: configuration, the rate limiter, the WebSocket hub and the stored rows. */
  class Server {
    const env: Env
    const pf: Platform
    const sealPrivateKey: string -> string    // createCipher('aes-256-cbc', BOT_SECRET).update(key, 'utf8', 'hex')
    const limiter: RateLimiter
    const hub: Hub
    var users: map<string, UserKeys>
    var markets: map<string, Market>
    var predictions: map<(string, string), Option<string>>

    ghost predicate Valid()
      reads this, hub
    {
      hub.Valid()
    }

    /** `!initData || !verifyTelegramAuth(initData)` is false. */
    predicate Authenticated(initData: string): (ok: bool)
      ensures ok ==> initData != "" && TokenSet(env.botToken)
    {
      initData != "" && VerifyTelegramAuth(env.botToken, initData, pf)
    }

    constructor (env: Env, pf: Platform, sealPrivateKey: string -> string)
      ensures Valid() && fresh(limiter) && fresh(hub)
      ensures this.env == env && this.pf == pf && this.sealPrivateKey == sealPrivateKey
      ensures limiter.counts == map[] && hub.connections == map[] && hub.clients == [] && hub.sent == []
      ensures users == map[] && markets == map[] && predictions == map[]
    {
      this.env := env;
      this.pf := pf;
      this.sealPrivateKey := sealPrivateKey;
      limiter := new RateLimiter();
      hub := new Hub();
      users, markets, predictions := map[], map[], map[];
    }

    /** POST /keygen.  No user id: 429 before any counting.  Otherwise the `bot:`
        counter (limit 5) is consumed first, then the key pair is upserted; a
        failed upsert still costs quota. */
    method Keygen(userId: string, minute: nat, keys: KeyPair, storageUp: bool) returns (res: Response)
      modifies this, limiter
      ensures markets == old(markets) && predictions == old(predictions)
      ensures userId == "" ==> res == RateLimited && limiter.counts == old(limiter.counts) && users == old(users)
      ensures userId != "" ==>
                var step := Admit(old(limiter.counts), CounterKey(KeygenCounter(userId), minute), KeygenLimit);
                && limiter.counts == step.1
                && (!step.0 ==> res == RateLimited && users == old(users))
                && (step.0 && !storageUp ==> res == InternalError && users == old(users))
                && (step.0 && storageUp ==>
                      && res == Response(200, Keys(keys.publicKey, keys.privateKey))
                      && users == old(users)[userId := UserKeys(keys.publicKey, sealPrivateKey(keys.privateKey))])
    {
      if userId == "" {
        return RateLimited;
      }
      var allowed := limiter.CheckRateLimit(KeygenCounter(userId), minute, KeygenLimit);
      if !allowed {
        return RateLimited;
      }
      if !storageUp {
        return InternalError;
      }
      users := users[userId := UserKeys(keys.publicKey, sealPrivateKey(keys.privateKey))];
      res := Response(200, Keys(keys.publicKey, keys.privateKey));
    }

    /** POST /market/create.  The market id is the hex of 16 random bytes; the id's
        SHA-256 is stored beside the row.  The insert is not an upsert: an id
        already present fails like any other database error. */
    method CreateMarket(question: string, userId: string, groupId: string, randomId: seq<byte>, storageUp: bool)
      returns (res: Response)
      requires |randomId| == 16
      modifies this
      ensures users == old(users) && predictions == old(predictions)
      ensures question == "" || userId == "" ==> res == MissingFields && markets == old(markets)
      ensures question != "" && userId != "" && (!storageUp || ToHex(randomId) in old(markets)) ==>
                res == InternalError && markets == old(markets)
      ensures question != "" && userId != "" && storageUp && ToHex(randomId) !in old(markets) ==>
                var marketId := ToHex(randomId);
                && markets == old(markets)[marketId := Market(question, userId, groupId, pf.sha256(pf.utf8(marketId)), false)]
                && res == Response(200, MarketLink(marketId, Printed(env.miniAppUrl) + "?startapp=" + marketId))
    {
      if question == "" || userId == "" {
        return MissingFields;
      }
      var marketId := ToHex(randomId);
      if !storageUp || marketId in markets {
        return InternalError;
      }
      markets := markets[marketId := Market(question, userId, groupId, pf.sha256(pf.utf8(marketId)), false)];
      res := Response(200, MarketLink(marketId, Printed(env.miniAppUrl) + "?startapp=" + marketId));
    }

    /** GET /markets/:id with `?auth=`. */
    method GetMarket(id: string, auth: string, storageUp: bool) returns (res: Response)
      ensures !Authenticated(auth) ==> res == Unauthorized
      ensures Authenticated(auth) && !storageUp ==> res == InternalError
      ensures Authenticated(auth) && storageUp && id !in markets ==> res == MarketNotFound
      ensures Authenticated(auth) && storageUp && id in markets ==>
                res == Response(200, EncryptedBlob(markets[id].question, markets[id].creator))
    {
      if !Authenticated(auth) {
        return Unauthorized;
      }
      if !storageUp {
        return InternalError;
      }
      if id !in markets {
        return MarketNotFound;
      }
      res := Response(200, EncryptedBlob(markets[id].question, markets[id].creator));
    }

    /** POST /prediction with `Authorization: tma <initData>`.  Authentication comes
        first, so a request that fails it consumes no quota; then the `user:`
        counter (default limit 10); then the upsert keyed by (user id, market id),
        which overwrites an earlier submission for the same pair; then the hash of
        the data, which fails with no data after the row (NULL data) is written. */
    method SubmitPrediction(marketId: string, encryptedData: Option<string>, authorization: Option<string>,
                            minute: nat, storageUp: bool) returns (res: Response)
      modifies this, limiter
      ensures users == old(users) && markets == old(markets)
      ensures !Authenticated(InitDataOf(authorization)) ==>
                res == Unauthorized && limiter.counts == old(limiter.counts) && predictions == old(predictions)
      ensures Authenticated(InitDataOf(authorization)) ==>
                var userId := pf.userIdOf(pf.parseQuery(InitDataOf(authorization)));
                && (userId == "" ==>
                      res == RateLimited && limiter.counts == old(limiter.counts) && predictions == old(predictions))
                && (userId != "" ==>
                      var step := Admit(old(limiter.counts), CounterKey(PredictionCounter(userId), minute), DefaultLimit);
                      && limiter.counts == step.1
                      && (!step.0 ==> res == RateLimited && predictions == old(predictions))
                      && (step.0 && !storageUp ==> res == InternalError && predictions == old(predictions))
                      && (step.0 && storageUp ==>
                            && predictions == old(predictions)[(userId, marketId) := encryptedData]
                            && (encryptedData.None? ==> res == InternalError)
                            && (encryptedData.Some? ==>
                                  res == Response(201, Transaction(ToHex(pf.sha256(pf.utf8(encryptedData.value))))))))
    {
      var initData := InitDataOf(authorization);
      if !Authenticated(initData) {
        return Unauthorized;
      }
      var userId := pf.userIdOf(pf.parseQuery(initData));
      if userId == "" {
        return RateLimited;
      }
      var allowed := limiter.CheckRateLimit(PredictionCounter(userId), minute, DefaultLimit);
      if !allowed {
        return RateLimited;
      }
      if !storageUp {
        return InternalError;
      }
      predictions := predictions[(userId, marketId) := encryptedData];
      if encryptedData.None? {
        return InternalError;
      }
      res := Response(201, Transaction(ToHex(pf.sha256(pf.utf8(encryptedData.value)))));
    }

    /** GET /positions/:userId with `?auth=`.  Any authenticated caller gets the
        positions of the user named in the path, not only their own. */
    method GetPositions(userId: string, auth: string, storageUp: bool) returns (res: Response)
      ensures !Authenticated(auth) ==> res == Unauthorized
      ensures Authenticated(auth) && !storageUp ==> res == InternalError
      ensures Authenticated(auth) && storageUp ==> res.status == 200 && res.body.Positions?
      ensures Authenticated(auth) && storageUp ==>
                forall m :: (m in res.body.byMarket <==> (userId, m) in predictions)
                         && (m in res.body.byMarket ==> res.body.byMarket[m] == predictions[(userId, m)])
    {
      if !Authenticated(auth) {
        return Unauthorized;
      }
      if !storageUp {
        return InternalError;
      }
      res := Response(200, Positions(PositionsOf(predictions, userId)));
    }

    /** POST /resolve with the `x-admin-token` header, behind the corrected guard.
        The status update runs first; once it succeeds, every OPEN client is
        notified, whether or not a market with that id exists. */
    method Resolve(marketId: string, outcome: bool, adminToken: Option<string>, storageUp: bool,
                   randomTx: seq<byte>) returns (res: Response)
      requires Valid() && |randomTx| == 32
      modifies this, hub`sent
      ensures Valid()
      ensures users == old(users) && predictions == old(predictions)
      ensures !AdminAuthorized(adminToken, env.adminToken) ==>
                res == Forbidden && markets == old(markets) && hub.sent == old(hub.sent)
      ensures AdminAuthorized(adminToken, env.adminToken) && !storageUp ==>
                res == InternalError && markets == old(markets) && hub.sent == old(hub.sent)
      ensures AdminAuthorized(adminToken, env.adminToken) && storageUp ==>
                && markets == MarkResolved(old(markets), marketId)
                && hub.sent == old(hub.sent) + FanOut(hub.clients, hub.state, Resolution(marketId, outcome))
                && res == Response(200, Transaction(ToHex(randomTx)))
    {
      if !AdminAuthorized(adminToken, env.adminToken) {
        return Forbidden;
      }
      if !storageUp {
        return InternalError;
      }
      markets := MarkResolved(markets, marketId);
      hub.NotifyAllOpen(Resolution(marketId, outcome));
      res := Response(200, Transaction(ToHex(randomTx)));
    }
  }
}
