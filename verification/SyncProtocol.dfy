/** The requests of a sync or an upload, against a server that may answer anything. */
module SyncProtocol {
  import opened ByteText
  import opened Backup

  datatype Method = HostKey | Meta | Download | Upload

  /** A POST to `base`/sync/`verb`; the header carries key and session, the body goes compressed. */
  datatype Request = Request(base: string, verb: Method, key: string, session: string, body: Bytes)

  /** A connection that fails, or a status with the Location header (if readable) and the body. */
  datatype Reply = NoReply | Reply(status: nat, location: Option<string>, body: Bytes)

  /** Any behaviour: the reply to the last request may depend on all that were sent. */
  type Server = seq<Request> -> Reply

  /** The library functions used on bodies; `None` for an error. */
  datatype Lib = Lib(
    decompress: Bytes -> Option<Bytes>,
    parseKey: Bytes -> Option<string>,      // HostKeyResponse.key
    parseEmpty: Bytes -> Option<bool>)      // MetaResponse.empty

  datatype Config = Config(username: string, password: string, endpoint: Option<string>)

  const DEFAULT_ENDPOINT := "https://sync.ankiweb.net/"

  datatype Result<+T> = Success(value: T) | MissingCredentials | LoginFailed | MetaFailed | TransferFailed

  /** `trim_end_matches('/')`. */
  function Trim(s: string): (r: string)
    ensures r <= s && (r == "" || r[|r| - 1] != '/')
    ensures forall i :: |r| <= i < |s| ==> s[i] == '/'
  {
    if s != "" && s[|s| - 1] == '/' then Trim(s[..|s| - 1]) else s
  }

  const MAGIC: Bytes := [0x28, 0xb5, 0x2f, 0xfd]

  /** A body that begins with the zstd magic number is decompressed, any other is taken as it is. */
  function DecodeBody(lib: Lib, body: Bytes): Option<Bytes> {
    if MAGIC <= body then lib.decompress(body) else Some(body)
  }

  predicate Redirects(r: Reply) { r.Reply? && 300 <= r.status < 400 && r.location.Some? }

  predicate Succeeds(r: Reply) { r.Reply? && 200 <= r.status < 300 }

  datatype Answer = Answer(data: Bytes, newBase: Option<string>)

  /** The requests sent for one method: one, or two when the first reply redirects. */
  ghost predicate Exchange(server: Server, sent: seq<Request>, sent': seq<Request>, req: Request) {
    && |sent| + 1 <= |sent'| <= |sent| + 2 && sent'[..|sent| + 1] == sent + [req]
    && (|sent'| == |sent| + 2 <==> Redirects(server(sent + [req])))
    && (|sent'| == |sent| + 2 ==> sent' == sent + [req, req.(base := Trim(server(sent + [req]).location.value))])
  }

  /** What the client makes of the last reply of an exchange. */
  ghost function AnswerTo(lib: Lib, server: Server, sent: seq<Request>, sent': seq<Request>): Option<Answer>
    requires |sent| < |sent'|
  {
    var reply := server(sent');
    if !Succeeds(reply) || DecodeBody(lib, reply.body).None? then None
    else Some(Answer(DecodeBody(lib, reply.body).value,
                     if |sent'| == |sent| + 2 then Some(sent'[|sent'| - 1].base) else None))
  }

  // ----- one method, from the replies alone

  /** The reply has status 2xx. */
  ghost predicate Status2xx(r: Reply) { r.Reply? && 200 <= r.status <= 299 }

  /** The reply has status 3xx and a readable Location. */
  ghost predicate Status3xx(r: Reply) { r.Reply? && 300 <= r.status <= 399 && r.location.Some? }

  /** The payload of a reply: of a 2xx only; decompressed if it begins with 28 b5 2f fd, else as it is. */
  ghost function Payload(lib: Lib, r: Reply): Option<Bytes> {
    if !Status2xx(r) then None
    else if |r.body| >= 4 && r.body[0] == 0x28 && r.body[1] == 0xb5 && r.body[2] == 0x2f && r.body[3] == 0xfd
    then lib.decompress(r.body)
    else Some(r.body)
  }

  /** The POSTs that `req` leads to after `sent`: itself, and again to the location of a 3xx. */
  ghost function Posts(server: Server, sent: seq<Request>, req: Request): (posts: seq<Request>)
    ensures |posts| > |sent|
  {
    var first := server(sent + [req]);
    if Status3xx(first) then sent + [req, req.(base := Trim(first.location.value))] else sent + [req]
  }

  /** The base to go on with: the trimmed location of a 3xx, else as before. */
  ghost function NextBase(server: Server, sent: seq<Request>, req: Request): string {
    var first := server(sent + [req]);
    if Status3xx(first) then Trim(first.location.value) else req.base
  }

  /** `sync_request`.  It posts once, and again exactly after a 3xx with a location; the answer is the payload
      of the last reply, with the new base exactly if there was a second POST. */
  method SyncRequest(lib: Lib, server: Server, sent: seq<Request>, req: Request)
    returns (answer: Option<Answer>, sent': seq<Request>)
    ensures Exchange(server, sent, sent', req) && answer == AnswerTo(lib, server, sent, sent')
    ensures sent' == Posts(server, sent, req)
    ensures var data := Payload(lib, server(sent'));
            && (answer.None? <==> data.None?)
            && (answer.Some? ==> answer.value.data == data.value)
            && (answer.Some? ==> answer.value.newBase == if Status3xx(server(sent + [req]))
                                                         then Some(NextBase(server, sent, req)) else None)
  {
    MagicSpelled();
    sent' := sent + [req];
    var reply := server(sent');
    var newBase: Option<string> := None;
    if Redirects(reply) {
      var base := Trim(reply.location.value);
      sent' := sent' + [req.(base := base)];
      assert sent' == sent + [req, req.(base := base)];
      reply := server(sent');
      newBase := Some(base);
    }
    assert sent'[..|sent| + 1] == sent + [req];
    if !Succeeds(reply) { return None, sent'; }
    var data := DecodeBody(lib, reply.body);
    answer := if data.None? then None else Some(Answer(data.value, newBase));
  }

  lemma MagicSpelled()
    ensures forall body: Bytes :: MAGIC <= body <==>
              |body| >= 4 && body[0] == 0x28 && body[1] == 0xb5 && body[2] == 0x2f && body[3] == 0xfd
  {
    forall body: Bytes
      ensures MAGIC <= body <==>
              |body| >= 4 && body[0] == 0x28 && body[1] == 0xb5 && body[2] == 0x2f && body[3] == 0xfd
    {
      if |body| >= 4 { assert body[..4] == [body[0], body[1], body[2], body[3]]; }
    }
  }

  /** All that a session sends: login, then exactly if that gave a key, meta with this key, then exactly
      if that succeeded (and for a download reported a collection) the transfer, which starts where meta
      was redirected to. */
  ghost predicate Session(lib: Lib, server: Server, sent: seq<Request>, a: nat, b: nat, base: string, session: string,
                          bodies: (Bytes, Bytes, Bytes), transfer: Method)
  {
    && 0 < a <= b <= |sent|
    && Exchange(server, [], sent[..a], Request(base, HostKey, "", session, bodies.0))
    && (a < b <==> LoginKey(lib, server, sent[..a]).Some?)
    && (a == b ==> b == |sent|)
    && (a < b ==>
          && Exchange(server, sent[..a], sent[..b],
                      Request(base, Meta, LoginKey(lib, server, sent[..a]).value, session, bodies.1))
          && (b < |sent| <==> MetaOk(lib, server, sent[..a], sent[..b], transfer)))
    && (b < |sent| ==>
          Exchange(server, sent[..b], sent,
                   Request(BaseAfter(lib, server, sent[..a], sent[..b], base), transfer,
                           LoginKey(lib, server, sent[..a]).value, session, bodies.2)))
  }

  /** How a session ends: at the first exchange that fails, or with the data of the transfer. */
  ghost function ResultOf(lib: Lib, server: Server, sent: seq<Request>, a: nat, b: nat): Result<Bytes>
    requires a <= b <= |sent|
  {
    if a == b then LoginFailed
    else if b == |sent| then MetaFailed
    else
      var answer := AnswerTo(lib, server, sent[..b], sent);
      if answer.None? then TransferFailed else Success(answer.value.data)
  }

  ghost function LoginKey(lib: Lib, server: Server, login: seq<Request>): Option<string>
    requires login != []
  {
    var answer := AnswerTo(lib, server, [], login);
    if answer.None? then None else lib.parseKey(answer.value.data)
  }

  ghost predicate MetaOk(lib: Lib, server: Server, login: seq<Request>, meta: seq<Request>, transfer: Method)
    requires |login| < |meta|
  {
    var answer := AnswerTo(lib, server, login, meta);
    answer.Some? && (transfer.Download? ==> lib.parseEmpty(answer.value.data) == Some(false))
  }

  ghost function BaseAfter(lib: Lib, server: Server, login: seq<Request>, meta: seq<Request>, base: string): string
    requires |login| < |meta|
  {
    var answer := AnswerTo(lib, server, login, meta);
    if answer.Some? && answer.value.newBase.Some? then Trim(answer.value.newBase.value) else base
  }

  /** What becomes of a session, from the replies alone: the first method without a payload, the key that
      does not parse, or for a download the meta that does not parse or reports no collection, decides;
      otherwise the payload of the transfer is the result.  The transfer goes to where meta was sent. */
  ghost predicate Outcome(lib: Lib, server: Server, base: string, session: string, bodies: (Bytes, Bytes, Bytes),
                          transfer: Method, r: Result<Bytes>, sent: seq<Request>)
  {
    var login := Posts(server, [], Request(base, HostKey, "", session, bodies.0));
    var keyText := Payload(lib, server(login));
    if keyText.None? || lib.parseKey(keyText.value).None? then r == LoginFailed && sent == login
    else
      var key := lib.parseKey(keyText.value).value;
      var metaReq := Request(base, Meta, key, session, bodies.1);
      var meta := Posts(server, login, metaReq);
      var state := Payload(lib, server(meta));
      if state.None? || (transfer.Download? && lib.parseEmpty(state.value) != Some(false))
      then r == MetaFailed && sent == meta
      else
        var last := Posts(server, meta, Request(NextBase(server, login, metaReq), transfer, key, session, bodies.2));
        var data := Payload(lib, server(last));
        sent == last && r == if data.None? then TransferFailed else Success(data.value)
  }

  function Base(config: Config): string {
    Trim(if config.endpoint.Some? then config.endpoint.value else DEFAULT_ENDPOINT)
  }

  /** `sync_collection` (transfer `Download`, body "{}") and `upload_collection` (transfer `Upload`, body the
      collection): the result of the transfer, and the requests sent. */
  method Transfer(lib: Lib, server: Server, config: Config, session: string, bodies: (Bytes, Bytes, Bytes),
                  transfer: Method)
    returns (r: Result<Bytes>, sent: seq<Request>, ghost a: nat, ghost b: nat)
    requires transfer.Download? || transfer.Upload?
    ensures r.MissingCredentials? <==> config.username == "" || config.password == ""
    ensures r.MissingCredentials? ==> sent == []
    ensures !r.MissingCredentials? ==> Session(lib, server, sent, a, b, Base(config), session, bodies, transfer)
    ensures !r.MissingCredentials? ==> r == ResultOf(lib, server, sent, a, b)
    ensures !r.MissingCredentials? ==>
              && sent != []
              && (config.endpoint.Some? ==> sent[0].base == Trim(config.endpoint.value))
              && (config.endpoint.None? ==> sent[0].base == Trim("https://sync.ankiweb.net/"))
              && Outcome(lib, server, sent[0].base, session, bodies, transfer, r, sent)
  {
    r, sent, a, b := RunSession(lib, server, config, session, bodies, transfer);
    if !r.MissingCredentials? {
      StartsAtBase(lib, server, sent, a, b, Base(config), session, bodies, transfer);
      OutcomeOf(lib, server, sent, a, b, Base(config), session, bodies, transfer);
    }
  }

  /** The calls one after the other. */
  method RunSession(lib: Lib, server: Server, config: Config, session: string, bodies: (Bytes, Bytes, Bytes),
                    transfer: Method)
    returns (r: Result<Bytes>, sent: seq<Request>, ghost a: nat, ghost b: nat)
    requires transfer.Download? || transfer.Upload?
    ensures r.MissingCredentials? <==> config.username == "" || config.password == ""
    ensures r.MissingCredentials? ==> sent == []
    ensures !r.MissingCredentials? ==> Session(lib, server, sent, a, b, Base(config), session, bodies, transfer)
    ensures !r.MissingCredentials? ==> r == ResultOf(lib, server, sent, a, b)
  {
    a, b := 0, 0;
    if config.username == "" || config.password == "" { return MissingCredentials, [], 0, 0; }
    var key: Option<string>;
    key, sent := Login(lib, server, Request(Base(config), HostKey, "", session, bodies.0));
    a, b := |sent|, |sent|;
    ghost var login := sent;
    assert sent[..a] == login;
    if key.None? { return LoginFailed, sent, a, b; }
    r, sent, b := MetaAndTransfer(lib, server, sent, Base(config), key.value, session, bodies, transfer);
    PrefixOf(server, login, sent[..b], Request(Base(config), Meta, key.value, session, bodies.1));
    assert sent[..a] == sent[..b][..a] == login;
  }

  /** The part of a session after the login. */
  method MetaAndTransfer(lib: Lib, server: Server, login: seq<Request>, base: string, key: string, session: string,
                         bodies: (Bytes, Bytes, Bytes), transfer: Method)
    returns (r: Result<Bytes>, sent: seq<Request>, ghost b: nat)
    ensures |login| < b <= |sent| && Exchange(server, login, sent[..b], Request(base, Meta, key, session, bodies.1))
    ensures b < |sent| <==> MetaOk(lib, server, login, sent[..b], transfer)
    ensures b < |sent| ==>
              Exchange(server, sent[..b], sent,
                       Request(BaseAfter(lib, server, login, sent[..b], base), transfer, key, session, bodies.2))
    ensures r == if b == |sent| then MetaFailed
                 else
                   var answer := AnswerTo(lib, server, sent[..b], sent);
                   if answer.None? then TransferFailed else Success(answer.value.data)
  {
    var meta: Option<Answer>;
    meta, sent := SyncRequest(lib, server, login, Request(base, Meta, key, session, bodies.1));
    b := |sent|;
    ghost var upToMeta := sent;
    assert sent[..b] == upToMeta;
    if meta.None? { return MetaFailed, sent, b; }
    if transfer.Download? && lib.parseEmpty(meta.value.data) != Some(false) { return MetaFailed, sent, b; }
    var next := if meta.value.newBase.Some? then Trim(meta.value.newBase.value) else base;
    var lastReq := Request(next, transfer, key, session, bodies.2);
    var last: Option<Answer>;
    last, sent := SyncRequest(lib, server, sent, lastReq);
    PrefixOf(server, upToMeta, sent, lastReq);
    r := if last.None? then TransferFailed else Success(last.value.data);
  }

  /** `login`. */
  method Login(lib: Lib, server: Server, req: Request) returns (key: Option<string>, sent: seq<Request>)
    ensures Exchange(server, [], sent, req) && key == LoginKey(lib, server, sent)
    ensures sent == Posts(server, [], req)
    ensures var data := Payload(lib, server(sent)); key == if data.None? then None else lib.parseKey(data.value)
  {
    var answer: Option<Answer>;
    answer, sent := SyncRequest(lib, server, [], req);
    key := if answer.Some? then lib.parseKey(answer.value.data) else None;
  }

  lemma StartsAtBase(lib: Lib, server: Server, sent: seq<Request>, a: nat, b: nat, base: string, session: string,
                     bodies: (Bytes, Bytes, Bytes), transfer: Method)
    requires Session(lib, server, sent, a, b, base, session, bodies, transfer)
    ensures sent != [] && sent[0].base == base
  {
    var req := Request(base, HostKey, "", session, bodies.0);
    assert sent[0] == sent[..a][..1][0] == ([] + [req])[0];
  }

  lemma ExchangeIsPosts(lib: Lib, server: Server, sent: seq<Request>, sent': seq<Request>, req: Request)
    requires Exchange(server, sent, sent', req)
    ensures sent' == Posts(server, sent, req)
    ensures var answer, data := AnswerTo(lib, server, sent, sent'), Payload(lib, server(sent'));
            && (answer.None? <==> data.None?) && (answer.Some? ==> answer.value.data == data.value)
            && (answer.Some? ==> answer.value.newBase == if Status3xx(server(sent + [req]))
                                                         then Some(NextBase(server, sent, req)) else None)
  {
    MagicSpelled();
    if |sent'| == |sent| + 1 { assert sent' == sent'[..|sent| + 1]; }
  }

  lemma TrimTwice(s: string)
    ensures Trim(Trim(s)) == Trim(s)
  {
  }

  lemma OutcomeOf(lib: Lib, server: Server, sent: seq<Request>, a: nat, b: nat, base: string, session: string,
                  bodies: (Bytes, Bytes, Bytes), transfer: Method)
    requires Session(lib, server, sent, a, b, base, session, bodies, transfer)
    ensures Outcome(lib, server, base, session, bodies, transfer, ResultOf(lib, server, sent, a, b), sent)
  {
    ExchangeIsPosts(lib, server, [], sent[..a], Request(base, HostKey, "", session, bodies.0));
    if a == b {
      assert sent[..a] == sent;
    } else {
      var metaReq := Request(base, Meta, LoginKey(lib, server, sent[..a]).value, session, bodies.1);
      ExchangeIsPosts(lib, server, sent[..a], sent[..b], metaReq);
      if b == |sent| {
        assert sent[..b] == sent;
      } else {
        GoesOn(lib, server, sent[..a], sent[..b], metaReq);
        var next := BaseAfter(lib, server, sent[..a], sent[..b], base);
        ExchangeIsPosts(lib, server, sent[..b], sent, Request(next, transfer, metaReq.key, session, bodies.2));
      }
    }
  }

  lemma GoesOn(lib: Lib, server: Server, login: seq<Request>, meta: seq<Request>, req: Request)
    requires Exchange(server, login, meta, req) && AnswerTo(lib, server, login, meta).Some?
    ensures BaseAfter(lib, server, login, meta, req.base) == NextBase(server, login, req)
  {
    ExchangeIsPosts(lib, server, login, meta, req);
    if Status3xx(server(login + [req])) { TrimTwice(server(login + [req]).location.value); }
  }

  lemma PrefixOf(server: Server, sent: seq<Request>, sent': seq<Request>, req: Request)
    requires Exchange(server, sent, sent', req)
    ensures sent'[..|sent|] == sent
  {
    assert sent'[..|sent|] == sent'[..|sent| + 1][..|sent|];
  }

  // ----- what every session keeps

  function Rank(m: Method): nat {
    match m
    case HostKey => 0
    case Meta => 1
    case _ => 2
  }

  /** The requests of an exchange differ from the first in the base only. */
  lemma ExchangeRequests(server: Server, sent: seq<Request>, sent': seq<Request>, req: Request, i: nat)
    requires Exchange(server, sent, sent', req) && |sent| <= i < |sent'|
    ensures sent'[i] == req.(base := sent'[i].base) && (i == |sent| ==> sent'[i] == req)
  {
    assert sent'[|sent|] == sent'[..|sent| + 1][|sent|] == req;
  }

  /** At most six POSTs, two for each method; methods in the order login, meta, transfer; one session id
      throughout; no key before the login has given one and that key ever after; a transfer only after a
      meta that succeeded, and for a download reported a collection, and it starts where meta ended. */
  lemma EverySession(lib: Lib, server: Server, sent: seq<Request>, a: nat, b: nat, base: string, session: string,
                     bodies: (Bytes, Bytes, Bytes), transfer: Method)
    requires Session(lib, server, sent, a, b, base, session, bodies, transfer) && Rank(transfer) == 2
    ensures |sent| <= 6 && a <= 2 && b - a <= 2 && |sent| - b <= 2
    ensures forall i :: 0 <= i < |sent| ==>
              && sent[i].session == session
              && sent[i].verb == (if i < a then HostKey else if i < b then Meta else transfer)
              && sent[i].body == (if i < a then bodies.0 else if i < b then bodies.1 else bodies.2)
    ensures forall i :: 0 <= i < a ==> sent[i].key == ""
    ensures forall i :: a <= i < |sent| ==> Some(sent[i].key) == LoginKey(lib, server, sent[..a])
    ensures sent[0].base == base && (a < |sent| ==> sent[a].base == base)
    ensures b < |sent| ==> MetaOk(lib, server, sent[..a], sent[..b], transfer)
    ensures b < |sent| ==> sent[b].base == if b == a + 2 then Trim(sent[b - 1].base) else base
  {
    forall i | 0 <= i < a
      ensures sent[i].key == "" && sent[i].session == session && sent[i].verb.HostKey? && sent[i].body == bodies.0
      ensures i == 0 ==> sent[i].base == base
    {
      ExchangeRequests(server, [], sent[..a], Request(base, HostKey, "", session, bodies.0), i);
    }
    if a < |sent| {
      var key := LoginKey(lib, server, sent[..a]).value;
      forall i | a <= i < b
        ensures sent[i].key == key && sent[i].session == session && sent[i].verb.Meta? && sent[i].body == bodies.1
        ensures i == a ==> sent[i].base == base
      {
        ExchangeRequests(server, sent[..a], sent[..b], Request(base, Meta, key, session, bodies.1), i);
      }
      if b < |sent| {
        var req := Request(BaseAfter(lib, server, sent[..a], sent[..b], base), transfer, key, session, bodies.2);
        forall i | b <= i < |sent|
          ensures sent[i].key == key && sent[i].session == session
          ensures sent[i].verb == transfer && sent[i].body == bodies.2
          ensures i == b ==> sent[i] == req
        {
          ExchangeRequests(server, sent[..b], sent, req, i);
        }
      }
    }
  }
}
