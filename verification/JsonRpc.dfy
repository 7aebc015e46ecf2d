/**
 * A JSON-RPC 2.0 server and the batch client, section 6 of the JSON-RPC 2.0
 * specification (cpp/jsonrpc/json-rpc-cxx/include/jsonrpccxx).
 *
 * Texts are the values they parse to.  A handler is a function of the
 * application's state, so a run shows which handler ran when.  The protocol's
 * member names and the library's messages are constructors, not characters.
 */
module JsonRpc {
  import opened Options

  datatype Json =
    | Null
    | Bool(b: bool)
    | Int(n: int)
    | Float(r: real)
    | Str(s: Text)
    | Arr(items: seq<Json>)
    | Obj(fields: map<Key, Json>)

  /** A member name: one of the protocol's, or any other text. */
  datatype Key = KId | KCode | KData | KError | KMethod | KParams | KResult | KJsonrpc | KMessage | Other(s: string)

  /** A string: as somebody else worded it, or one of the library's own messages. */
  datatype Text = Given(s: string) | Worded(m: Message)

  datatype Message =
    | NoVersion
    | MethodNotString
    | BadId
    | BadParams
    | ExpectedArrayOrObject
    | ParamsNotArrayOrObject
    | NoNamedParameters
    | MissingParameter(key: Key)
    | NotFound(name: Text)
    | InvalidParameter(what: string)
    | ForIndex(message: Text, index: nat)
    | ForName(message: Text, key: Key)
    | Internal
    | InternalBecause(what: string)
    | BadErrorResponse
    | NoResultFor(id: Json)
    | ParseFailed
    | ExpectedArray

  const PARSE_ERROR := -32700
  const INVALID_REQUEST := -32600
  const METHOD_NOT_FOUND := -32601
  const INVALID_PARAMS := -32602
  const INTERNAL_ERROR := -32603

  /** What a handler may throw: a `JsonRpcException`, a JSON type error, another `std::exception`, anything else. */
  datatype Exn = Rpc(code: int, message: Text, data: Json) | TypeError(what: string) | Std(what: string) | Foreign

  datatype Outcome = Returned(value: Json) | Raised(e: Exn)

  datatype Result<T> = Ok(value: T) | Fail(e: Exn)

  type Handle<!W> = (W, Json) -> (W, Outcome)

  // ----- common.hpp

  predicate HasKey(v: Json, key: Key) { v.Obj? && key in v.fields }

  predicate IsId(v: Json) { v.Int? || v.Float? || v.Str? }

  predicate ValidId(v: Json) { HasKey(v, KId) && (IsId(v.fields[KId]) || v.fields[KId].Null?) }

  predicate ValidIdNotNull(v: Json) { HasKey(v, KId) && IsId(v.fields[KId]) }

  /** `JsonRpcException::fromJson`. */
  function FromJson(v: Json): Exn {
    if HasKey(v, KCode) && v.fields[KCode].Int? && HasKey(v, KMessage) && v.fields[KMessage].Str? then
      Rpc(v.fields[KCode].n, v.fields[KMessage].s, if HasKey(v, KData) then v.fields[KData] else Null)
    else Rpc(INTERNAL_ERROR, Worded(BadErrorResponse), Null)
  }

  // ----- dispatcher.hpp

  datatype Registry<!W> = Registry(methods: map<Text, Handle<W>>, notifications: map<Text, Handle<W>>, mapping: map<Text, seq<Key>>)

  /** No name is both, and only registered names have a mapping, never an empty one. */
  ghost predicate Consistent<W>(g: Registry<W>) {
    && g.methods.Keys !! g.notifications.Keys
    && g.mapping.Keys <= g.methods.Keys + g.notifications.Keys
    && forall name | name in g.mapping :: g.mapping[name] != []
  }

  /** The values of the named parameters in the order of the mapping, or the first name that is missing. */
  function Collect(names: seq<Key>, fields: map<Key, Json>): (r: Result<seq<Json>>)
    ensures r.Fail? ==> r.e.Rpc?
  {
    if names == [] then Ok([])
    else if names[0] !in fields then Fail(Missing(names[0]))
    else match Collect(names[1..], fields)
      case Ok(rest) => Ok([fields[names[0]]] + rest)
      case Fail(e) => Fail(e)
  }

  function Missing(name: Key): Exn {
    Rpc(INVALID_PARAMS, Worded(MissingParameter(name)), Null)
  }

  function Normalize(mapping: map<Text, seq<Key>>, name: Text, params: Json): (r: Result<Json>)
    ensures if r.Ok? then r.value.Arr? else r.e.Rpc?
  {
    match params
    case Arr(_) => Ok(params)
    case Obj(fields) =>
      if name !in mapping then Fail(Rpc(INVALID_PARAMS, Worded(NoNamedParameters), Null))
      else (match Collect(mapping[name], fields) case Ok(values) => Ok(Arr(values)) case Fail(e) => Fail(e))
    case _ => Fail(Rpc(INVALID_REQUEST, Worded(ParamsNotArrayOrObject), Null))
  }

  predicate Empty(v: Json) { v.Null? || v == Arr([]) || v == Obj(map[]) }

  /** `get<unsigned int>`. */
  function AsIndex(v: Json): Option<nat> {
    match v
    case Int(n) => Some(n % 0x1_0000_0000)
    case Bool(b) => Some(if b then 1 else 0)
    case Float(r) => Some((if r < 0.0 then -((-r).Floor) else r.Floor) % 0x1_0000_0000)
    case _ => None
  }

  /** What leaves the dispatcher when a handler throws. */
  function Translate(mapping: map<Text, seq<Key>>, name: Text, e: Exn): Exn {
    match e
    case TypeError(what) => Rpc(INVALID_PARAMS, Worded(InvalidParameter(what)), Null)
    case Rpc(code, message, data) =>
      if code != INVALID_PARAMS || Empty(data) then e
      else (match AsIndex(data)
        case None => Std("type error")
        case Some(i) =>
          var worded := if name in mapping && i < |mapping[name]| then ForName(message, mapping[name][i]) else ForIndex(message, i);
          Rpc(code, Worded(worded), Null))
    case _ => e
  }

  /** One call through a handler table. */
  function Through<W>(table: map<Text, Handle<W>>, mapping: map<Text, seq<Key>>, w: W, name: Text, params: Json): (W, Outcome) {
    if name !in table then (w, Raised(Rpc(METHOD_NOT_FOUND, Worded(NotFound(name)), Null)))
    else match Normalize(mapping, name, params)
      case Fail(e) => (w, Raised(Translate(mapping, name, e)))
      case Ok(p) =>
        var (w', o) := table[name](w, p);
        (w', if o.Raised? then Raised(Translate(mapping, name, o.e)) else o)
  }

  function Invoke<W>(g: Registry<W>, w: W, name: Text, params: Json): (W, Outcome) {
    Through(g.methods, g.mapping, w, name, params)
  }

  function Notify<W>(g: Registry<W>, w: W, name: Text, params: Json): (W, Outcome) {
    Through(g.notifications, g.mapping, w, name, params)
  }

  // ----- server.hpp

  const VERSION := Str(Given("2.0"))

  function ResultResponse(id: Json, value: Json): Json { Obj(map[KJsonrpc := VERSION, KId := id, KResult := value]) }

  function ErrorObject(e: Exn): Json {
    match e
    case Rpc(code, message, data) =>
      if data.Null? then Obj(map[KCode := Int(code), KMessage := Str(message)])
      else Obj(map[KCode := Int(code), KMessage := Str(message), KData := data])
    case TypeError(what) => Obj(map[KCode := Int(INTERNAL_ERROR), KMessage := Str(Worded(InternalBecause(what)))])
    case Std(what) => Obj(map[KCode := Int(INTERNAL_ERROR), KMessage := Str(Worded(InternalBecause(what)))])
    case Foreign => Obj(map[KCode := Int(INTERNAL_ERROR), KMessage := Str(Worded(Internal))])
  }

  function ErrorResponse(id: Json, e: Exn): Json { Obj(map[KId := id, KError := ErrorObject(e), KJsonrpc := VERSION]) }

  /** The request is malformed in the first of the ways the source tests for. */
  function Malformed(r: Json): Option<Message> {
    if !(HasKey(r, KJsonrpc) && r.fields[KJsonrpc] == VERSION) then
      Some(NoVersion)
    else if !(HasKey(r, KMethod) && r.fields[KMethod].Str?) then Some(MethodNotString)
    else if HasKey(r, KId) && !ValidId(r) then Some(BadId)
    else if HasKey(r, KParams) && !(r.fields[KParams].Arr? || r.fields[KParams].Obj? || r.fields[KParams].Null?) then
      Some(BadParams)
    else None
  }

  function ParamsOf(r: Json): Json {
    if !HasKey(r, KParams) || r.fields[KParams].Null? then Arr([]) else r.fields[KParams]
  }

  /** One request, and the null value for no response. */
  function Serve<W>(g: Registry<W>, w: W, r: Json): (W, Json) {
    var id := if ValidId(r) then r.fields[KId] else Null;
    match Malformed(r)
    case Some(message) => (w, ErrorResponse(id, Rpc(INVALID_REQUEST, Worded(message), Null)))
    case None =>
      var name, params := r.fields[KMethod].s, ParamsOf(r);
      if HasKey(r, KId) then
        var (w', o) := Invoke(g, w, name, params);
        (w', if o.Returned? then ResultResponse(id, o.value) else ErrorResponse(id, o.e))
      else
        var (w', o) := Notify(g, w, name, params);
        (w', if o == Raised(Foreign) then ErrorResponse(Null, Foreign) else Null)
  }

  function Listed(res: Json): seq<Json> { if res.Null? then [] else [res] }

  function ServeAll<W>(g: Registry<W>, w: W, rs: seq<Json>): (W, seq<Json>) {
    if rs == [] then (w, [])
    else
      var (w1, res) := Serve(g, w, rs[0]);
      var (w2, rest) := ServeAll(g, w1, rs[1..]);
      (w2, Listed(res) + rest)
  }

  // ----- what is answered, in terms of handlers and fields

  /** What comes back when a handler is done with a call. */
  predicate Passed(r: Outcome, got: Outcome) {
    match r
    case Returned(v) => got == Returned(v)
    case Raised(TypeError(what)) => got == Raised(Rpc(-32602, Worded(InvalidParameter(what)), Null))
    case Raised(Rpc(code, message, data)) =>
      if code != -32602 || data.Null? || data == Arr([]) || data == Obj(map[]) then got == r
      else if data.Int? || data.Bool? || data.Float? then got.Raised? && got.e.Rpc? && got.e.code == -32602 && got.e.data.Null?
      else got.Raised? && got.e.Std?
    case Raised(_) => got == r
  }

  /** A method called with positional parameters: its handler decides, or the name is unknown. */
  lemma CallComesTo<W>(g: Registry<W>, w: W, name: Text, values: seq<Json>)
    ensures name !in g.methods ==> Invoke(g, w, name, Arr(values)) == (w, Raised(Rpc(-32601, Worded(NotFound(name)), Null)))
    ensures name in g.methods ==>
              var (w', r) := g.methods[name](w, Arr(values));
              Invoke(g, w, name, Arr(values)).0 == w' && Passed(r, Invoke(g, w, name, Arr(values)).1)
  {
  }

  lemma NoteComesTo<W>(g: Registry<W>, w: W, name: Text, values: seq<Json>)
    ensures name !in g.notifications ==> Notify(g, w, name, Arr(values)) == (w, Raised(Rpc(-32601, Worded(NotFound(name)), Null)))
    ensures name in g.notifications ==>
              var (w', r) := g.notifications[name](w, Arr(values));
              Notify(g, w, name, Arr(values)).0 == w' && Passed(r, Notify(g, w, name, Arr(values)).1)
  {
  }

  /** Parameters that reach no handler: neither array nor object, named ones without a mapping, and a name that is missing. */
  lemma {:induction false} BadParameters<W>(g: Registry<W>, w: W, name: Text, params: Json)
    requires name in g.methods
    ensures !params.Arr? && !params.Obj? ==> Invoke(g, w, name, params) == (w, Raised(Rpc(-32600, Worded(ParamsNotArrayOrObject), Null)))
    ensures params.Obj? && name !in g.mapping ==> Invoke(g, w, name, params) == (w, Raised(Rpc(-32602, Worded(NoNamedParameters), Null)))
    ensures params.Obj? && name in g.mapping && (exists i | 0 <= i < |g.mapping[name]| :: g.mapping[name][i] !in params.fields) ==>
              exists i | 0 <= i < |g.mapping[name]| :: g.mapping[name][i] !in params.fields
                && Invoke(g, w, name, params) == (w, Raised(Rpc(-32602, Worded(MissingParameter(g.mapping[name][i])), Null)))
  {
    if params.Obj? && name in g.mapping { CollectPicks(g.mapping[name], params.fields); }
  }

  /** A well-formed request, in terms of its fields. */
  predicate WellFormed(r: Json) {
    && r.Obj?
    && KJsonrpc in r.fields && r.fields[KJsonrpc] == Str(Given("2.0"))
    && KMethod in r.fields && r.fields[KMethod].Str?
    && (KId in r.fields ==> r.fields[KId].Int? || r.fields[KId].Float? || r.fields[KId].Str? || r.fields[KId].Null?)
    && (KParams in r.fields ==> r.fields[KParams].Arr? || r.fields[KParams].Obj? || r.fields[KParams].Null?)
  }

  /** Any other value is answered with -32600, under its id if that is one, and reaches no handler. */
  lemma MalformedIff<W>(g: Registry<W>, w: W, r: Json)
    ensures Malformed(r).None? <==> WellFormed(r)
    ensures !WellFormed(r) ==>
              var id := if r.Obj? && KId in r.fields && (r.fields[KId].Int? || r.fields[KId].Float? || r.fields[KId].Str?) then r.fields[KId] else Null;
              exists m :: Serve(g, w, r) ==
                (w, Obj(map[KId := id, KError := Obj(map[KCode := Int(-32600), KMessage := Str(Worded(m))]), KJsonrpc := Str(Given("2.0"))]))
  {
    if Malformed(r).Some? {
      var id := if ValidId(r) then r.fields[KId] else Null;
      assert Serve(g, w, r) == (w, ErrorResponse(id, Rpc(INVALID_REQUEST, Worded(Malformed(r).value), Null)));
    }
  }

  /** A well-formed request is answered under its id, a result or an error; one without id is not answered, but for what is not a `std::exception`. */
  lemma Answered<W>(g: Registry<W>, w: W, r: Json)
    requires WellFormed(r)
    ensures var name := r.fields[KMethod].s;
            var params := if KParams in r.fields && !r.fields[KParams].Null? then r.fields[KParams] else Arr([]);
            if KId in r.fields then
              var (w', o) := Invoke(g, w, name, params);
              Serve(g, w, r).0 == w' && match o
              case Returned(v) => Serve(g, w, r).1 == Obj(map[KJsonrpc := Str(Given("2.0")), KId := r.fields[KId], KResult := v])
              case Raised(Rpc(code, m, data)) =>
                Serve(g, w, r).1 == Obj(map[KJsonrpc := Str(Given("2.0")), KId := r.fields[KId],
                  KError := if data.Null? then Obj(map[KCode := Int(code), KMessage := Str(m)])
                            else Obj(map[KCode := Int(code), KMessage := Str(m), KData := data])])
              case Raised(_) =>
                Serve(g, w, r).1.Obj? && Serve(g, w, r).1.fields.Keys == {KJsonrpc, KId, KError} && Serve(g, w, r).1.fields[KId] == r.fields[KId]
                && HasKey(Serve(g, w, r).1.fields[KError], KCode) && Serve(g, w, r).1.fields[KError].fields[KCode] == Int(-32603)
            else
              var (w', o) := Notify(g, w, name, params);
              Serve(g, w, r).0 == w' && (Serve(g, w, r).1.Null? <==> o != Raised(Foreign))
  {
  }

  /** A server with one method that adds two numbers. */
  function Adder(): Registry<()> {
    Registry(map[Given("add") := (w, p) => (w, Add2(p))], map[], map[])
  }

  function Add2(p: Json): Outcome {
    if p.Arr? && |p.items| == 2 && p.items[0].Int? && p.items[1].Int? then Returned(Int(p.items[0].n + p.items[1].n))
    else Raised(TypeError("numbers wanted"))
  }

  /** One request and its response, field by field. */
  lemma AddsUp()
    ensures Serve(Adder(), (), Obj(map[KJsonrpc := Str(Given("2.0")), KId := Int(1), KMethod := Str(Given("add")), KParams := Arr([Int(1), Int(2)])]))
         == ((), Obj(map[KJsonrpc := Str(Given("2.0")), KId := Int(1), KResult := Int(3)]))
  {
    CallComesTo(Adder(), (), Given("add"), [Int(1), Int(2)]);
  }

  // ----- batchclient.hpp

  datatype Id = IntId(n: int) | StrId(s: string)

  datatype Params = Positional(values: seq<Json>) | Named(fields: map<Key, Json>)

  datatype Call = Method(id: Id, name: Text, params: Params) | Notification(name: Text, params: Params)

  function IdJson(id: Id): Json { match id case IntId(n) => Int(n) case StrId(s) => Str(Given(s)) }

  function ParamsJson(p: Params): Json { match p case Positional(v) => Arr(v) case Named(v) => Obj(v) }

  function Request(c: Call): Json {
    match c
    case Method(id, name, params) =>
      Obj(map[KMethod := Str(name), KParams := ParamsJson(params), KJsonrpc := VERSION, KId := IdJson(id)])
    case Notification(name, params) => Obj(map[KMethod := Str(name), KParams := ParamsJson(params), KJsonrpc := VERSION])
  }

  function Requests(cs: seq<Call>): seq<Json> {
    seq(|cs|, i requires 0 <= i < |cs| => Request(cs[i]))
  }

  predicate IsResult(v: Json) { ValidIdNotNull(v) && HasKey(v, KResult) }

  predicate IsError(v: Json) { !IsResult(v) && ValidIdNotNull(v) && HasKey(v, KError) }

  function IdOf(v: Json): Json { if HasKey(v, KId) then v.fields[KId] else Null }

  function ResultIndex(items: seq<Json>): map<Json, nat> {
    if items == [] then map[]
    else
      var n := |items| - 1;
      var before := ResultIndex(items[..n]);
      if IsResult(items[n]) then before[IdOf(items[n]) := n] else before
  }

  function ErrorIndex(items: seq<Json>): map<Json, nat> {
    if items == [] then map[]
    else
      var n := |items| - 1;
      var before := ErrorIndex(items[..n]);
      if IsError(items[n]) then before[IdOf(items[n]) := n] else before
  }

  function NullIndex(items: seq<Json>): seq<nat> {
    if items == [] then []
    else
      var n := |items| - 1;
      NullIndex(items[..n]) + if IsResult(items[n]) || IsError(items[n]) then [] else [n]
  }

  /** The entries point at responses of their kind and id. */
  lemma {:induction false} IndexPoints(items: seq<Json>)
    ensures forall id | id in ResultIndex(items) ::
              var k := ResultIndex(items)[id]; k < |items| && IsResult(items[k]) && IdOf(items[k]) == id
    ensures forall id | id in ErrorIndex(items) ::
              var k := ErrorIndex(items)[id]; k < |items| && IsError(items[k]) && IdOf(items[k]) == id
    ensures forall k | k in NullIndex(items) :: k < |items| && !IsResult(items[k]) && !IsError(items[k])
  {
    if items != [] { IndexPoints(items[..|items| - 1]); }
  }

  lemma {:induction false} IndexCovers(items: seq<Json>, k: nat)
    requires k < |items|
    ensures IsResult(items[k]) ==> IdOf(items[k]) in ResultIndex(items)
    ensures IsError(items[k]) ==> IdOf(items[k]) in ErrorIndex(items)
  {
    if k < |items| - 1 { IndexCovers(items[..|items| - 1], k); }
  }

  /** What `Get` finds; a result is preferred to an error. */
  function Lookup(items: seq<Json>, id: Json): Outcome {
    IndexPoints(items);
    if id in ResultIndex(items) then Returned(items[ResultIndex(items)[id]].fields[KResult])
    else if id in ErrorIndex(items) then Raised(FromJson(items[ErrorIndex(items)[id]].fields[KError]))
    else Raised(Rpc(PARSE_ERROR, Worded(NoResultFor(id)), Null))
  }

  // ----- what a batch means

  /** What one call comes to; `Null` is the id of the answer to a notification that must not have one. */
  datatype Reply = Reply(id: Json, outcome: Outcome)

  function PlayOne<W>(g: Registry<W>, w: W, c: Call): (W, Option<Reply>) {
    match c
    case Method(id, name, params) =>
      var (w', o) := Invoke(g, w, name, ParamsJson(params));
      (w', Some(Reply(IdJson(id), o)))
    case Notification(name, params) =>
      var (w', o) := Notify(g, w, name, ParamsJson(params));
      (w', if o == Raised(Foreign) then Some(Reply(Null, o)) else None)
  }

  function Some1(r: Option<Reply>): seq<Reply> { match r case None => [] case Some(x) => [x] }

  /** The calls one after the other. */
  function Play<W>(g: Registry<W>, w: W, cs: seq<Call>): (W, seq<Reply>) {
    if cs == [] then (w, [])
    else
      var (w1, r) := PlayOne(g, w, cs[0]);
      var (w2, rest) := Play(g, w1, cs[1..]);
      (w2, Some1(r) + rest)
  }

  function WorldAt<W>(g: Registry<W>, w: W, cs: seq<Call>, i: nat): W
    requires i <= |cs|
  {
    Play(g, w, cs[..i]).0
  }

  /** What the client should get for an outcome. */
  function Received(o: Outcome): Outcome {
    match o
    case Returned(_) => o
    case Raised(Rpc(_, _, _)) => o
    case Raised(TypeError(what)) => Raised(Rpc(INTERNAL_ERROR, Worded(InternalBecause(what)), Null))
    case Raised(Std(what)) => Raised(Rpc(INTERNAL_ERROR, Worded(InternalBecause(what)), Null))
    case Raised(Foreign) => Raised(Rpc(INTERNAL_ERROR, Worded(Internal), Null))
  }

  function Response(r: Reply): Json {
    if r.outcome.Returned? then ResultResponse(r.id, r.outcome.value) else ErrorResponse(r.id, r.outcome.e)
  }

  function Responses(rs: seq<Reply>): (items: seq<Json>)
    ensures |items| == |rs| && forall k | 0 <= k < |rs| :: items[k] == Response(rs[k])
  {
    if rs == [] then [] else [Response(rs[0])] + Responses(rs[1..])
  }

  lemma ErrorSurvives(e: Exn)
    ensures Raised(FromJson(ErrorObject(e))) == Received(Raised(e))
  {
  }

  /** A response is filed under its id, or under none when it has none. */
  lemma ResponseKind(r: Reply)
    requires r.id.Null? || IsId(r.id)
    ensures var v := Response(r);
            && IdOf(v) == r.id
            && (IsResult(v) <==> r.outcome.Returned? && !r.id.Null?)
            && (IsError(v) <==> r.outcome.Raised? && !r.id.Null?)
            && (r.outcome.Returned? ==> HasKey(v, KResult) && v.fields[KResult] == r.outcome.value)
            && (r.outcome.Raised? ==> HasKey(v, KError) && v.fields[KError] == ErrorObject(r.outcome.e))
  {
  }

  lemma ServeCall<W>(g: Registry<W>, w: W, c: Call)
    ensures var (w', r) := PlayOne(g, w, c);
            Serve(g, w, Request(c)) == (w', match r case None => Null case Some(x) => Response(x))
  {
  }

  lemma ResponsesSplit(a: seq<Reply>, b: seq<Reply>)
    ensures Responses(a + b) == Responses(a) + Responses(b)
  {
  }

  lemma OneListed(r: Option<Reply>)
    ensures Listed(match r case None => Null case Some(x) => Response(x)) == Responses(Some1(r))
  {
  }

  /** The server's answer to a batch is the calls played in order, one response each in that order. */
  lemma {:induction false} ServePlays<W>(g: Registry<W>, w: W, cs: seq<Call>)
    ensures ServeAll(g, w, Requests(cs)) == (Play(g, w, cs).0, Responses(Play(g, w, cs).1))
    decreases |cs|
  {
    if cs != [] {
      var (w1, r) := PlayOne(g, w, cs[0]);
      ServeCall(g, w, cs[0]);
      ServePlays(g, w1, cs[1..]);
      assert Requests(cs)[1..] == Requests(cs[1..]);
      ResponsesSplit(Some1(r), Play(g, w1, cs[1..]).1);
      OneListed(r);
    }
  }

  lemma {:induction false} PlaySplit<W>(g: Registry<W>, w: W, a: seq<Call>, b: seq<Call>)
    ensures var (w1, r1) := Play(g, w, a);
            var (w2, r2) := Play(g, w1, b);
            Play(g, w, a + b).0 == w2 && Play(g, w, a + b).1 == r1 + r2
    decreases |a|
  {
    if a == [] {
      assert a + b == b;
    } else {
      assert (a + b)[1..] == a[1..] + b && (a + b)[0] == a[0];
      PlaySplit(g, PlayOne(g, w, a[0]).0, a[1..], b);
    }
  }

  /** The reply to call i stands behind those of the calls before it. */
  lemma {:induction false} PlayedAt<W>(g: Registry<W>, w: W, cs: seq<Call>, i: nat)
    requires i < |cs| && cs[i].Method?
    ensures var k := |Play(g, w, cs[..i]).1|;
            var o := Invoke(g, WorldAt(g, w, cs, i), cs[i].name, ParamsJson(cs[i].params)).1;
            k < |Play(g, w, cs).1| && Play(g, w, cs).1[k] == Reply(IdJson(cs[i].id), o)
  {
    assert cs == cs[..i] + cs[i..];
    PlaySplit(g, w, cs[..i], cs[i..]);
  }

  /** The ids of the method calls, in order. */
  function MethodIds(cs: seq<Call>): seq<Json> {
    if cs == [] then []
    else (if cs[0].Method? then [IdJson(cs[0].id)] else []) + MethodIds(cs[1..])
  }

  /** No notification handler throws what is not a `std::exception`. */
  predicate Quiet<W>(g: Registry<W>, w: W, cs: seq<Call>) {
    cs == []
    || (var (w1, r) := PlayOne(g, w, cs[0]);
        (cs[0].Method? || r.None?) && Quiet(g, w1, cs[1..]))
  }

  function IdsOf(rs: seq<Reply>): (ids: seq<Json>)
    ensures |ids| == |rs| && forall k | 0 <= k < |rs| :: ids[k] == rs[k].id
  {
    if rs == [] then [] else [rs[0].id] + IdsOf(rs[1..])
  }

  function NonNull(ids: seq<Json>): seq<Json> {
    if ids == [] then [] else (if ids[0].Null? then [] else [ids[0]]) + NonNull(ids[1..])
  }

  lemma {:induction false} NonNullSplit(a: seq<Json>, b: seq<Json>)
    ensures NonNull(a + b) == NonNull(a) + NonNull(b)
  {
    if a == [] {
      assert a + b == b;
    } else {
      NonNullSplit(a[1..], b);
      assert (a + b)[1..] == a[1..] + b && (a + b)[0] == a[0];
      var head := if a[0].Null? then [] else [a[0]];
      assert head + (NonNull(a[1..]) + NonNull(b)) == head + NonNull(a[1..]) + NonNull(b);
    }
  }

  lemma {:induction false} IdsSplit(a: seq<Reply>, b: seq<Reply>)
    ensures IdsOf(a + b) == IdsOf(a) + IdsOf(b)
  {
  }

  /** One reply per method call in request order; any others are for notifications and have no id. */
  lemma {:induction false} OneReplyEach<W>(g: Registry<W>, w: W, cs: seq<Call>)
    ensures NonNull(IdsOf(Play(g, w, cs).1)) == MethodIds(cs)
    decreases |cs|
  {
    if cs != [] {
      var (w1, r) := PlayOne(g, w, cs[0]);
      var rest := Play(g, w1, cs[1..]).1;
      OneReplyEach(g, w1, cs[1..]);
      IdsSplit(Some1(r), rest);
      NonNullSplit(IdsOf(Some1(r)), IdsOf(rest));
      if r.Some? { assert IdsOf(Some1(r)) == [r.value.id] && IdsOf(Some1(r))[1..] == []; }
    }
  }

  /** Only a notification that must not answer gives a reply without id. */
  lemma {:induction false} ReplyKinds<W>(g: Registry<W>, w: W, cs: seq<Call>)
    ensures forall r | r in Play(g, w, cs).1 :: IsId(r.id) || (r.id.Null? && r.outcome == Raised(Foreign))
    ensures Quiet(g, w, cs) <==> forall r | r in Play(g, w, cs).1 :: IsId(r.id)
    decreases |cs|
  {
    if cs != [] {
      var (w1, r) := PlayOne(g, w, cs[0]);
      var rest := Play(g, w1, cs[1..]).1;
      ReplyKinds(g, w1, cs[1..]);
      assert Play(g, w, cs).1 == Some1(r) + rest;
      assert r.Some? ==> r.value in Some1(r) + rest;
    }
  }

  predicate Distinct(ids: seq<Json>) {
    forall i, j | 0 <= i < j < |ids| :: ids[i] != ids[j]
  }

  /** The client finds a reply under its id when no other reply has that id. */
  lemma {:induction false} FoundUnderId(rs: seq<Reply>, k: nat)
    requires k < |rs| && IsId(rs[k].id)
    requires forall j | 0 <= j < |rs| :: IsId(rs[j].id) || rs[j].id.Null?
    requires forall j | 0 <= j < |rs| && j != k :: rs[j].id != rs[k].id
    ensures Lookup(Responses(rs), rs[k].id) == Received(rs[k].outcome)
  {
    var items, id := Responses(rs), rs[k].id;
    forall j | 0 <= j < |rs| ensures IdOf(items[j]) == rs[j].id { ResponseKind(rs[j]); }
    ResponseKind(rs[k]);
    IndexPoints(items);
    IndexCovers(items, k);
    if rs[k].outcome.Raised? { ErrorSurvives(rs[k].outcome.e); }
  }

  lemma DistinctTail(id: Json, rest: seq<Json>)
    requires Distinct([id] + rest)
    ensures Distinct(rest) && id !in rest
  {
    forall j | 0 <= j < |rest| ensures rest[j] != id {
      assert ([id] + rest)[0] == id && ([id] + rest)[j + 1] == rest[j];
    }
    forall i, j | 0 <= i < j < |rest| ensures rest[i] != rest[j] {
      assert ([id] + rest)[i + 1] == rest[i] && ([id] + rest)[j + 1] == rest[j];
    }
  }

  lemma {:induction false} NonNullUnique(ids: seq<Json>, i: nat, j: nat)
    requires i < j < |ids| && Distinct(NonNull(ids)) && !ids[i].Null?
    ensures ids[i] != ids[j]
    decreases |ids|
  {
    var rest := NonNull(ids[1..]);
    if i > 0 {
      if ids[0].Null? {
        assert NonNull(ids) == rest;
      } else {
        assert NonNull(ids) == [ids[0]] + rest;
        DistinctTail(ids[0], rest);
      }
      NonNullUnique(ids[1..], i - 1, j - 1);
    } else {
      assert NonNull(ids) == [ids[0]] + rest;
      DistinctTail(ids[0], rest);
      if !ids[j].Null? { NonNullHas(ids[1..], j - 1); }
    }
  }

  lemma {:induction false} NonNullHas(ids: seq<Json>, j: nat)
    requires j < |ids| && !ids[j].Null?
    ensures ids[j] in NonNull(ids)
  {
    if j > 0 { NonNullHas(ids[1..], j - 1); }
  }

  /** What the client gets when a handler is done: what is not a `JsonRpcException` has become an internal error. */
  predicate Arrived(r: Outcome, got: Outcome) {
    match r
    case Returned(v) => got == Returned(v)
    case Raised(TypeError(what)) => got == Raised(Rpc(-32602, Worded(InvalidParameter(what)), Null))
    case Raised(Std(what)) => got == Raised(Rpc(-32603, Worded(InternalBecause(what)), Null))
    case Raised(Foreign) => got == Raised(Rpc(-32603, Worded(Internal), Null))
    case Raised(Rpc(code, message, data)) =>
      if code != -32602 || data.Null? || data == Arr([]) || data == Obj(map[]) then got == r
      else got.Raised? && got.e.Rpc? && got.e.code == if data.Int? || data.Bool? || data.Float? then -32602 else -32603
  }

  lemma PassedArrives(r: Outcome, got: Outcome)
    requires Passed(r, got)
    ensures Arrived(r, Received(got))
  {
  }

  /** The handler of `c` gets these values: the positional ones, or the named ones in the order of the mapping. */
  ghost predicate Gets<W>(g: Registry<W>, c: Call, values: seq<Json>) {
    match c.params
    case Positional(v) => values == v
    case Named(fields) =>
      && c.name in g.mapping && |values| == |g.mapping[c.name]|
      && forall i | 0 <= i < |values| :: g.mapping[c.name][i] in fields && fields[g.mapping[c.name][i]] == values[i]
  }

  lemma SameCall<W>(g: Registry<W>, w: W, c: Call, values: seq<Json>)
    requires Gets(g, c, values)
    ensures Invoke(g, w, c.name, ParamsJson(c.params)) == Invoke(g, w, c.name, Arr(values))
    ensures Notify(g, w, c.name, ParamsJson(c.params)) == Notify(g, w, c.name, Arr(values))
  {
    if c.params.Named? { NamedIsPositional(g, w, c.name, values, c.params.fields); }
  }

  /** The application's state: every call finds it as the handlers of the earlier ones left it. */
  lemma {:induction false} WorldMoves<W>(g: Registry<W>, w: W, cs: seq<Call>, i: nat, values: seq<Json>)
    requires i < |cs| && Gets(g, cs[i], values)
    ensures WorldAt(g, w, cs, 0) == w
    ensures var table := if cs[i].Method? then g.methods else g.notifications;
            WorldAt(g, w, cs, i + 1) ==
              if cs[i].name in table then table[cs[i].name](WorldAt(g, w, cs, i), Arr(values)).0 else WorldAt(g, w, cs, i)
  {
    var now := WorldAt(g, w, cs, i);
    assert cs[..i + 1] == cs[..i] + [cs[i]] && [cs[i]][1..] == [];
    PlaySplit(g, w, cs[..i], [cs[i]]);
    SameCall(g, now, cs[i], values);
    CallComesTo(g, now, cs[i].name, values);
    NoteComesTo(g, now, cs[i].name, values);
  }

  /**
   * Every method call of a batch with distinct ids gets, under its id, what its
   * handler returned or raised at its turn, and -32601 when there is no such method.
   */
  lemma {:induction false} BatchAnswersEveryCall<W>(g: Registry<W>, w: W, cs: seq<Call>, i: nat, values: seq<Json>)
    requires i < |cs| && cs[i].Method? && Distinct(MethodIds(cs)) && Gets(g, cs[i], values)
    ensures var got := Lookup(ServeAll(g, w, Requests(cs)).1, IdJson(cs[i].id));
            if cs[i].name in g.methods then Arrived(g.methods[cs[i].name](WorldAt(g, w, cs, i), Arr(values)).1, got)
            else got == Raised(Rpc(-32601, Worded(NotFound(cs[i].name)), Null))
  {
    var now := WorldAt(g, w, cs, i);
    BatchInvokes(g, w, cs, i);
    SameCall(g, now, cs[i], values);
    CallComesTo(g, now, cs[i].name, values);
    if cs[i].name in g.methods { PassedArrives(g.methods[cs[i].name](now, Arr(values)).1, Invoke(g, now, cs[i].name, Arr(values)).1); }
  }

  /** Parameters that reach no handler come back as the error they are. */
  lemma {:induction false} BatchInvokes<W>(g: Registry<W>, w: W, cs: seq<Call>, i: nat)
    requires i < |cs| && cs[i].Method? && Distinct(MethodIds(cs))
    ensures Lookup(ServeAll(g, w, Requests(cs)).1, IdJson(cs[i].id))
         == Received(Invoke(g, WorldAt(g, w, cs, i), cs[i].name, ParamsJson(cs[i].params)).1)
  {
    var rs := Play(g, w, cs).1;
    var k := |Play(g, w, cs[..i]).1|;
    ServePlays(g, w, cs);
    PlayedAt(g, w, cs, i);
    OneReplyEach(g, w, cs);
    ReplyKinds(g, w, cs);
    forall j | 0 <= j < |rs| && j != k ensures rs[j].id != rs[k].id {
      if j < k {
        if !rs[j].id.Null? { NonNullUnique(IdsOf(rs), j, k); }
      } else {
        NonNullUnique(IdsOf(rs), k, j);
      }
    }
    FoundUnderId(rs, k);
  }

  lemma {:induction false} NoNullItems(items: seq<Json>)
    ensures NullIndex(items) == [] <==> forall j | 0 <= j < |items| :: IsResult(items[j]) || IsError(items[j])
  {
    if items != [] {
      var n := |items| - 1;
      NoNullItems(items[..n]);
      assert forall j | 0 <= j < n :: items[..n][j] == items[j];
    }
  }

  lemma {:induction false} NoNullIndex(rs: seq<Reply>)
    requires forall j | 0 <= j < |rs| :: IsId(rs[j].id) || rs[j].id.Null?
    ensures NullIndex(Responses(rs)) == [] <==> forall j | 0 <= j < |rs| :: IsId(rs[j].id)
  {
    var items := Responses(rs);
    NoNullItems(items);
    forall j | 0 <= j < |rs| ensures IsId(rs[j].id) <==> IsResult(items[j]) || IsError(items[j]) { ResponseKind(rs[j]); }
  }

  /**
   * The batch answer is one response per method call, in request order, and the
   * client notes no response without an id, exactly when no notification handler
   * throws what is not a `std::exception`.
   */
  lemma {:induction false} OneResponsePerCallIff<W>(g: Registry<W>, w: W, cs: seq<Call>)
    ensures var items := ServeAll(g, w, Requests(cs)).1;
            && (Quiet(g, w, cs) <==> NullIndex(items) == [])
            && (Quiet(g, w, cs) ==> |items| == |MethodIds(cs)| && forall k | 0 <= k < |items| :: IdOf(items[k]) == MethodIds(cs)[k])
  {
    ServePlays(g, w, cs);
    OneReplyEach(g, w, cs);
    ReplyKinds(g, w, cs);
    var rs := Play(g, w, cs).1;
    NoNullIndex(rs);
    if Quiet(g, w, cs) { ResponseIds(rs); }
  }

  lemma {:induction false} ResponseIds(rs: seq<Reply>)
    requires forall r | r in rs :: IsId(r.id)
    ensures |Responses(rs)| == |NonNull(IdsOf(rs))|
    ensures forall k | 0 <= k < |rs| :: IdOf(Responses(rs)[k]) == NonNull(IdsOf(rs))[k]
  {
    AllNonNull(IdsOf(rs));
    forall k | 0 <= k < |rs| ensures IdOf(Responses(rs)[k]) == rs[k].id { ResponseKind(rs[k]); }
  }

  /** No registered notification handler throws what is not a `std::exception`, in whatever state and on whatever parameters. */
  ghost predicate Tame<W(!new)>(g: Registry<W>) {
    forall name, w, values | name in g.notifications :: Gentle(g.notifications[name], w, values)
  }

  predicate Gentle<W>(h: Handle<W>, w: W, values: seq<Json>) {
    h(w, Arr(values)).1 != Raised(Foreign)
  }

  lemma {:induction false} NotifyGentle<W(!new)>(g: Registry<W>, w: W, name: Text, params: Json)
    requires Tame(g)
    ensures Notify(g, w, name, params).1 != Raised(Foreign)
  {
    if name in g.notifications {
      match Normalize(g.mapping, name, params)
      case Ok(p) => assert p.Arr? && Gentle(g.notifications[name], w, p.items);
      case Fail(e) =>
    }
  }

  lemma {:induction false} TameIsQuiet<W(!new)>(g: Registry<W>, w: W, cs: seq<Call>)
    requires Tame(g)
    ensures Quiet(g, w, cs)
    decreases |cs|
  {
    if cs != [] {
      if cs[0].Notification? { NotifyGentle(g, w, cs[0].name, ParamsJson(cs[0].params)); }
      TameIsQuiet(g, PlayOne(g, w, cs[0]).0, cs[1..]);
    }
  }

  /** Every batch, in every state, is answered with one response per call, exactly when the registered handlers are tame. */
  lemma {:induction false} AlwaysOneResponsePerCallIff<W(!new)>(g: Registry<W>)
    ensures Tame(g) <==> forall w, cs :: NullIndex(ServeAll(g, w, Requests(cs)).1) == []
  {
    if Tame(g) {
      forall w, cs ensures NullIndex(ServeAll(g, w, Requests(cs)).1) == [] {
        TameIsQuiet(g, w, cs);
        OneResponsePerCallIff(g, w, cs);
      }
    } else {
      var name, w, values :| name in g.notifications && !Gentle(g.notifications[name], w, values);
      WildNotification(g, w, name, values);
    }
  }

  lemma {:induction false} WildNotification<W>(g: Registry<W>, w: W, name: Text, values: seq<Json>)
    requires name in g.notifications && !Gentle(g.notifications[name], w, values)
    ensures NullIndex(ServeAll(g, w, Requests([Notification(name, Positional(values))])).1) != []
  {
    var cs := [Notification(name, Positional(values))];
    assert !Quiet(g, w, cs);
    OneResponsePerCallIff(g, w, cs);
  }

  const BAD: Text := Given("n")

  /** A server whose only notification handler throws an integer, say. */
  function WildServer(): Registry<()> {
    Registry(map[], map[BAD := (w, p) => (w, Raised(Foreign))], map[])
  }

  /** A batch of one notification to it is answered, with a null id. */
  lemma {:induction false} NotificationAnswered()
    ensures var items := ServeAll(WildServer(), (), Requests([Notification(BAD, Positional([]))])).1;
            NullIndex(items) == [0] && items == [ErrorResponse(Null, Foreign)]
  {
    var g, c := WildServer(), Notification(BAD, Positional([]));
    assert Notify(g, (), BAD, Arr([])) == ((), Raised(Foreign));
    assert [c][1..] == [];
    ServePlays(g, (), [c]);
    assert Play(g, (), [c]).1 == [Reply(Null, Raised(Foreign))];
    var rs := [Reply(Null, Raised(Foreign))];
    assert rs[1..] == [];
    ResponseKind(rs[0]);
    assert Responses(rs) == [ErrorResponse(Null, Foreign)];
    assert Responses(rs)[..0] == [];
  }

  lemma {:induction false} AllNonNull(ids: seq<Json>)
    requires forall k | 0 <= k < |ids| :: !ids[k].Null?
    ensures NonNull(ids) == ids
  {
    if ids != [] { AllNonNull(ids[1..]); }
  }

  // ----- named and positional parameters

  /** The mapping picks the named values in its order, and fails on the first name that is missing. */
  lemma {:induction false} CollectPicks(names: seq<Key>, fields: map<Key, Json>)
    ensures match Collect(names, fields)
            case Ok(values) => |values| == |names| && forall i | 0 <= i < |names| :: names[i] in fields && values[i] == fields[names[i]]
            case Fail(e) => exists i | 0 <= i < |names| :: names[i] !in fields && e == Missing(names[i]) && forall j | 0 <= j < i :: names[j] in fields
  {
    if names != [] && names[0] in fields {
      CollectPicks(names[1..], fields);
      if Collect(names[1..], fields).Fail? {
        var i :| 0 <= i < |names[1..]| && names[1..][i] !in fields && Collect(names[1..], fields).e == Missing(names[1..][i])
              && forall j | 0 <= j < i :: names[1..][j] in fields;
        forall j | 0 <= j < i + 1 ensures names[j] in fields { if j > 0 { assert names[1..][j - 1] in fields; } }
        assert names[i + 1] == names[1..][i];
      }
    }
  }

  /** Named parameters that agree with positional ones under the mapping make the same call. */
  lemma {:induction false} NamedIsPositional<W>(g: Registry<W>, w: W, name: Text, values: seq<Json>, fields: map<Key, Json>)
    requires name in g.mapping && |values| == |g.mapping[name]|
    requires forall i | 0 <= i < |values| :: g.mapping[name][i] in fields && fields[g.mapping[name][i]] == values[i]
    ensures Invoke(g, w, name, Obj(fields)) == Invoke(g, w, name, Arr(values))
    ensures Notify(g, w, name, Obj(fields)) == Notify(g, w, name, Arr(values))
  {
    CollectPicks(g.mapping[name], fields);
    assert Collect(g.mapping[name], fields).Ok?;
    assert Collect(g.mapping[name], fields).value == values;
  }

  // ----- the objects

  class Dispatcher<W> {
    var methods: map<Text, Handle<W>>
    var notifications: map<Text, Handle<W>>
    var mapping: map<Text, seq<Key>>

    ghost function Table(): Registry<W>
      reads this
    {
      Registry(methods, notifications, mapping)
    }

    constructor ()
      ensures Table() == Registry(map[], map[], map[]) && Consistent(Table())
    {
      methods, notifications, mapping := map[], map[], map[];
    }

    /** `Add` for a method: a name is taken once, by either kind. */
    method AddMethod(name: Text, callback: Handle<W>, names: seq<Key>) returns (ok: bool)
      requires Consistent(Table())
      modifies this
      ensures Consistent(Table())
      ensures ok <==> name !in old(methods) && name !in old(notifications)
      ensures methods == if ok then old(methods)[name := callback] else old(methods)
      ensures notifications == old(notifications)
      ensures mapping == if ok && names != [] then old(mapping)[name := names] else old(mapping)
    {
      if name in methods || name in notifications { return false; }
      methods := methods[name := callback];
      if names != [] { mapping := mapping[name := names]; }
      ok := true;
    }

    /** `Add` for a notification. */
    method AddNotification(name: Text, callback: Handle<W>, names: seq<Key>) returns (ok: bool)
      requires Consistent(Table())
      modifies this
      ensures Consistent(Table())
      ensures ok <==> name !in old(methods) && name !in old(notifications)
      ensures notifications == if ok then old(notifications)[name := callback] else old(notifications)
      ensures methods == old(methods)
      ensures mapping == if ok && names != [] then old(mapping)[name := names] else old(mapping)
    {
      if name in methods || name in notifications { return false; }
      notifications := notifications[name := callback];
      if names != [] { mapping := mapping[name := names]; }
      ok := true;
    }

    /** `normalize_parameter`. */
    method NormalizeParameter(name: Text, params: Json) returns (r: Result<Json>)
      ensures r == Normalize(mapping, name, params)
    {
      if params.Arr? { return Ok(params); }
      if params.Obj? {
        if name !in mapping { return Fail(Rpc(INVALID_PARAMS, Worded(NoNamedParameters), Null)); }
        var names, fields := mapping[name], params.fields;
        var values: seq<Json> := [];
        assert names[0..] == names && forall rest: seq<Json> :: values + rest == rest;
        for i := 0 to |names|
          invariant Collect(names, fields) == Behind(values, Collect(names[i..], fields))
        {
          var p := names[i];
          if p !in fields { return Fail(Missing(p)); }
          assert names[i..][1..] == names[i + 1..];
          assert forall rest: seq<Json> :: values + ([fields[p]] + rest) == values + [fields[p]] + rest;
          values := values + [fields[p]];
        }
        assert values + [] == values;
        return Ok(Arr(values));
      }
      r := Fail(Rpc(INVALID_REQUEST, Worded(ParamsNotArrayOrObject), Null));
    }

    /** `InvokeMethod`. */
    method InvokeMethod(w: W, name: Text, params: Json) returns (w': W, o: Outcome)
      ensures (w', o) == Invoke(Table(), w, name, params)
    {
      if name !in methods { return w, Raised(Rpc(METHOD_NOT_FOUND, Worded(NotFound(name)), Null)); }
      var p := NormalizeParameter(name, params);
      if p.Fail? { return w, Raised(Translate(mapping, name, p.e)); }
      var (after, out) := methods[name](w, p.value);
      if out.Raised? { return after, Raised(Translate(mapping, name, out.e)); }
      return after, out;
    }

    /** `InvokeNotification`. */
    method InvokeNotification(w: W, name: Text, params: Json) returns (w': W, o: Outcome)
      ensures (w', o) == Notify(Table(), w, name, params)
    {
      if name !in notifications { return w, Raised(Rpc(METHOD_NOT_FOUND, Worded(NotFound(name)), Null)); }
      var p := NormalizeParameter(name, params);
      if p.Fail? { return w, Raised(Translate(mapping, name, p.e)); }
      var (after, out) := notifications[name](w, p.value);
      if out.Raised? { return after, Raised(Translate(mapping, name, out.e)); }
      return after, out;
    }
  }

  /** Values collected so far in front of the rest. */
  function Behind(values: seq<Json>, rest: Result<seq<Json>>): Result<seq<Json>> {
    match rest case Ok(more) => Ok(values + more) case Fail(e) => Fail(e)
  }

  /** The text that goes back; a notification alone gets the empty string. */
  datatype Answer = Silence | Sent(v: Json)

  function NoIdError(code: int, m: Message): Json {
    Obj(map[KId := Null, KError := Obj(map[KCode := Int(code), KMessage := Str(Worded(m))]), KJsonrpc := VERSION])
  }

  class Server<W> {
    const dispatcher: Dispatcher<W>

    constructor ()
      ensures fresh(dispatcher) && dispatcher.Table() == Registry(map[], map[], map[])
    {
      dispatcher := new Dispatcher();
    }

    /** `Add` for a method: names that begin with "rpc." are refused. */
    method AddMethod(name: string, callback: Handle<W>, names: seq<Key>) returns (ok: bool)
      requires Consistent(dispatcher.Table())
      modifies dispatcher
      ensures Consistent(dispatcher.Table())
      ensures var g := old(dispatcher.Table()); var n := Given(name);
              && (ok <==> !("rpc." <= name) && n !in g.methods && n !in g.notifications)
              && dispatcher.Table() == if !ok then g else g.(methods := g.methods[n := callback],
                                         mapping := if names != [] then g.mapping[n := names] else g.mapping)
    {
      if "rpc." <= name { return false; }
      ok := dispatcher.AddMethod(Given(name), callback, names);
    }

    /** `Add` for a notification. */
    method AddNotification(name: string, callback: Handle<W>, names: seq<Key>) returns (ok: bool)
      requires Consistent(dispatcher.Table())
      modifies dispatcher
      ensures Consistent(dispatcher.Table())
      ensures var g := old(dispatcher.Table()); var n := Given(name);
              && (ok <==> !("rpc." <= name) && n !in g.methods && n !in g.notifications)
              && dispatcher.Table() == if !ok then g else g.(notifications := g.notifications[n := callback],
                                         mapping := if names != [] then g.mapping[n := names] else g.mapping)
    {
      if "rpc." <= name { return false; }
      ok := dispatcher.AddNotification(Given(name), callback, names);
    }

    /** `HandleSingleRequest` with `ProcessSingleRequest`. */
    method HandleSingleRequest(w: W, request: Json) returns (w': W, res: Json)
      ensures (w', res) == Serve(dispatcher.Table(), w, request)
    {
      var id := Null;
      if ValidId(request) { id := request.fields[KId]; }
      var bad := Malformed(request);
      if bad.Some? { return w, ErrorResponse(id, Rpc(INVALID_REQUEST, Worded(bad.value), Null)); }
      var name, params := request.fields[KMethod].s, ParamsOf(request);
      var o: Outcome;
      if !HasKey(request, KId) {
        w', o := dispatcher.InvokeNotification(w, name, params);
        res := if o == Raised(Foreign) then ErrorResponse(id, Foreign) else Null;
      } else {
        w', o := dispatcher.InvokeMethod(w, name, params);
        res := if o.Returned? then ResultResponse(id, o.value) else ErrorResponse(id, o.e);
      }
    }

    /** The loop of `HandleRequest` over a batch. */
    method HandleArray(w: W, items: seq<Json>) returns (w': W, result: seq<Json>)
      ensures w' == ServeAll(dispatcher.Table(), w, items).0 && result == ServeAll(dispatcher.Table(), w, items).1
    {
      ghost var g := dispatcher.Table();
      w', result := w, [];
      assert items[0..] == items;
      for i := 0 to |items|
        invariant ServeAll(g, w, items).0 == ServeAll(g, w', items[i..]).0
        invariant ServeAll(g, w, items).1 == result + ServeAll(g, w', items[i..]).1
      {
        assert items[i..][1..] == items[i + 1..];
        var res;
        w', res := HandleSingleRequest(w', items[i]);
        if !res.Null? { result := result + [res]; }
      }
    }

    /** `HandleRequest`; a request that does not parse is `None`. */
    method HandleRequest(w: W, request: Option<Json>) returns (w': W, answer: Answer)
      ensures request.Some? && request.value.Arr? ==>
                var (w2, items) := ServeAll(dispatcher.Table(), w, request.value.items); w' == w2 && answer == Sent(Arr(items))
      ensures request.Some? && request.value.Obj? ==>
                var (w2, res) := Serve(dispatcher.Table(), w, request.value); w' == w2 && answer == if res.Null? then Silence else Sent(res)
      ensures request.Some? && !request.value.Arr? && !request.value.Obj? ==>
                w' == w && answer == Sent(NoIdError(-32600, ExpectedArrayOrObject))
      ensures request.None? ==> w' == w && answer == Sent(NoIdError(-32700, ParseFailed))
    {
      if request.None? { return w, Sent(NoIdError(PARSE_ERROR, ParseFailed)); }
      var r := request.value;
      w' := w;
      if r.Arr? {
        var result;
        w', result := HandleArray(w, r.items);
        answer := Sent(Arr(result));
      } else if r.Obj? {
        var res;
        w', res := HandleSingleRequest(w, r);
        answer := if res.Null? then Silence else Sent(res);
      } else {
        answer := Sent(NoIdError(INVALID_REQUEST, ExpectedArrayOrObject));
      }
    }
  }

  class BatchRequest {
    var call: seq<Json>

    constructor ()
      ensures call == []
    {
      call := [];
    }

    /** `AddMethodCall` and `AddNamedMethodCall`. */
    method AddMethodCall(id: Id, name: Text, params: Params)
      modifies this
      ensures call == old(call) + [Request(Method(id, name, params))]
    {
      var request := map[KMethod := Str(name), KParams := ParamsJson(params), KJsonrpc := VERSION];
      match id {
        case IntId(n) => request := request[KId := Int(n)];
        case StrId(s) => request := request[KId := Str(Given(s))];
      }
      call := call + [Obj(request)];
    }

    /** `AddNotificationCall` and `AddNamedNotificationCall`. */
    method AddNotificationCall(name: Text, params: Params)
      modifies this
      ensures call == old(call) + [Request(Notification(name, params))]
    {
      call := call + [Obj(map[KMethod := Str(name), KParams := ParamsJson(params), KJsonrpc := VERSION])];
    }
  }

  class BatchResponse {
    const response: seq<Json>
    var results: map<Json, nat>
    var errors: map<Json, nat>
    var nullIds: seq<nat>

    ghost predicate Valid()
      reads this
    {
      results == ResultIndex(response) && errors == ErrorIndex(response) && nullIds == NullIndex(response)
    }

    constructor (response: seq<Json>)
      ensures Valid() && this.response == response
    {
      this.response := response;
      results, errors, nullIds := map[], map[], [];
      new;
      for i := 0 to |response|
        invariant results == ResultIndex(response[..i]) && errors == ErrorIndex(response[..i]) && nullIds == NullIndex(response[..i])
      {
        var v := response[i];
        assert response[..i + 1][..i] == response[..i];
        if IsResult(v) {
          results := results[IdOf(v) := i];
        } else if IsError(v) {
          errors := errors[IdOf(v) := i];
        } else {
          nullIds := nullIds + [i];
        }
      }
      assert response[..|response|] == response;
    }

    method Get(id: Json) returns (o: Outcome)
      requires Valid()
      ensures o == Lookup(response, id)
    {
      IndexPoints(response);
      if id in results {
        o := Returned(response[results[id]].fields[KResult]);
      } else if id in errors {
        o := Raised(FromJson(response[errors[id]].fields[KError]));
      } else {
        o := Raised(Rpc(PARSE_ERROR, Worded(NoResultFor(id)), Null));
      }
    }
  }

  /** `BatchCall` against a server in the same process: the answer to the batch, indexed. */
  method BatchCall<W>(server: Server<W>, w: W, ghost cs: seq<Call>, request: BatchRequest) returns (w': W, r: BatchResponse)
    requires request.call == Requests(cs)
    ensures fresh(r) && r.Valid()
    ensures var (w2, items) := ServeAll(server.dispatcher.Table(), w, Requests(cs)); w' == w2 && r.response == items
  {
    var answer;
    w', answer := server.HandleRequest(w, Some(Arr(request.call)));
    r := new BatchResponse(answer.v.items);
  }
}
