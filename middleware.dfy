/**
 * The group-based middleware of restrict_middleware.go and its later copy in
 * middleware.go (the two files define the same `Restrict`, `Blacklist` and
 * `Whitelist`; one model covers both), plus the pass-through of
 * `MiddlewareLogger`.
 *
 * A handler is a total function from the update to its error (`None` is a
 * nil error). The sender's group lookup (`GetUserGroup`, a database query)
 * is a parameter returning the group and whether the query failed.
 */
module Middleware {
  import opened Wrappers
  import opened UserGroups

  /** What the middleware reads from an update. */
  datatype Ctx = Ctx(senderID: int, text: string, data: string, mediaType: Option<string>)

  type Handler = Ctx -> Option<string>

  /** `GetUserGroup`: the group and whether the lookup reported an error. */
  type GroupLookup = int -> (UserGroup, bool)

  /** `RestrictConfig`: a `None` handler is a nil `In` / `Out`. */
  datatype RestrictConfig = RestrictConfig(userType: UserGroup, inH: Option<Handler>, outH: Option<Handler>)

  function OrNext(h: Option<Handler>, next: Handler): Handler
  {
    if h.Some? then h.value else next
  }

  /**
   * `Restrict(v)(next)`: `In` for a sender of the configured group, `Out`
   * for everyone else, with a nil handler replaced by `next`. The error the
   * lookup reports is discarded.
   */
  function Restrict(v: RestrictConfig, lookup: GroupLookup, next: Handler): (h: Handler)
    ensures forall c: Ctx :: lookup(c.senderID).0 == v.userType ==> h(c) == OrNext(v.inH, next)(c)
    ensures forall c: Ctx :: lookup(c.senderID).0 != v.userType ==> h(c) == OrNext(v.outH, next)(c)
  {
    var inH := OrNext(v.inH, next);
    var outH := OrNext(v.outH, next);
    (c: Ctx) => if lookup(c.senderID).0 == v.userType then inH(c) else outH(c)
  }

  /** With neither `In` nor `Out` set, the middleware is transparent. */
  lemma RestrictNilIsNext(userType: UserGroup, lookup: GroupLookup, next: Handler, c: Ctx)
    ensures Restrict(RestrictConfig(userType, None, None), lookup, next)(c) == next(c)
  {
  }

  /** Only the group decides: two lookups that agree on it give the same handler result, whatever error they report. */
  lemma RestrictIgnoresLookupError(v: RestrictConfig, l1: GroupLookup, l2: GroupLookup, next: Handler, c: Ctx)
    requires l1(c.senderID).0 == l2(c.senderID).0
    ensures Restrict(v, l1, next)(c) == Restrict(v, l2, next)(c)
  {
  }

  /** The handler that swallows an update: a nil error and nothing else. */
  function Drop(): (h: Handler)
    ensures forall c: Ctx :: h(c) == None
  {
    (c: Ctx) => None
  }

  /** `Blacklist(g)(next)`: `In` drops the update, `Out` is `next`. */
  function Blacklist(userType: UserGroup, lookup: GroupLookup, next: Handler): Handler
  {
    Restrict(RestrictConfig(userType, Some(Drop()), Some(next)), lookup, next)
  }

  /** `Whitelist(g)(next)`: `In` is `next`, `Out` drops the update. */
  function Whitelist(userType: UserGroup, lookup: GroupLookup, next: Handler): Handler
  {
    Restrict(RestrictConfig(userType, Some(next), Some(Drop())), lookup, next)
  }

  /** A blacklisted group never reaches `next`; every other sender does. */
  lemma BlacklistDrops(userType: UserGroup, lookup: GroupLookup, next: Handler, c: Ctx)
    ensures lookup(c.senderID).0 == userType ==> Blacklist(userType, lookup, next)(c) == None
    ensures lookup(c.senderID).0 != userType ==> Blacklist(userType, lookup, next)(c) == next(c)
  {
  }

  /** Only a whitelisted group reaches `next`; every other sender is dropped. */
  lemma WhitelistPasses(userType: UserGroup, lookup: GroupLookup, next: Handler, c: Ctx)
    ensures lookup(c.senderID).0 == userType ==> Whitelist(userType, lookup, next)(c) == next(c)
    ensures lookup(c.senderID).0 != userType ==> Whitelist(userType, lookup, next)(c) == None
  {
  }

  /** For any one sender exactly one of the two lists lets the update through to `next`. */
  lemma ListsComplement(userType: UserGroup, lookup: GroupLookup, next: Handler, c: Ctx)
    ensures {Blacklist(userType, lookup, next)(c), Whitelist(userType, lookup, next)(c)} == {None, next(c)}
  {
    BlacklistDrops(userType, lookup, next, c);
    WhitelistPasses(userType, lookup, next, c);
  }

  // ---------------------------------------------------------- the logger

  /** The two zap calls of the logging middleware. */
  datatype LogEntry =
    | InfoEntry(text: string, user: int, data: string, mediaType: string)
    | ErrorEntry(user: int, err: string)

  type LoggedHandler = Ctx -> (Option<string>, seq<LogEntry>)

  /**
   * `MiddlewareLogger(logger)(next)`: `None` is the panic on a nil logger.
   * Otherwise the wrapped handler runs `next`, logs one info line and, when
   * `next` failed, one error line, and returns `next`'s error untouched.
   */
  function MiddlewareLogger(hasLogger: bool, next: Handler): (r: Option<LoggedHandler>)
    ensures r.None? <==> !hasLogger
    ensures r.Some? ==> forall c: Ctx :: r.value(c).0 == next(c)
    ensures r.Some? ==> forall c: Ctx :: |r.value(c).1| == (if next(c).Some? then 2 else 1)
    ensures r.Some? ==> forall c: Ctx ::
      r.value(c).1[0] == InfoEntry(c.text, c.senderID, c.data, if c.mediaType.Some? then c.mediaType.value else "")
  {
    if !hasLogger then None
    else
      Some((c: Ctx) =>
        var err := next(c);
        var info := InfoEntry(c.text, c.senderID, c.data, if c.mediaType.Some? then c.mediaType.value else "");
        (err, if err.Some? then [info, ErrorEntry(c.senderID, err.value)] else [info]))
  }
}
