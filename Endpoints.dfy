/**
 * The outcomes of the three endpoints of main.py that carry logic: GET /card
 * (`get_random_card`), POST /cards/reload (`reload_cards`) and POST /attempt
 * (`record_attempt`), first as functions of what the cache and the store
 * answered, then as methods of a service object that owns the cache and the
 * store. `random.choice` is the index `pick`, chosen by the caller.
 */
module Endpoints {
  import opened Wrappers
  import opened Text
  import opened SheetSource
  import opened CardCache
  import opened AttemptStore

  /** The JSON body of a 200 response. */
  datatype Body =
    | CardBody(card: Card)
    | Reloaded(message: string)
    | AttemptRecorded(message: string, cardId: string, correct: bool)

  /** A 200 response, or the `HTTPException` an endpoint raises. */
  datatype Response = Ok(body: Body) | HttpError(status: nat, detail: string)

  const NoCardsDetail: string := "No cards available"
  const CardErrorPrefix: string := "Error fetching card: "
  const ReloadErrorPrefix: string := "Error reloading cards: "
  const AttemptErrorPrefix: string := "Error recording attempt: "
  const AttemptOkMessage: string := "Attempt recorded successfully"

  /** `str(HTTPException(status, detail))`, which Starlette renders as
      "<status>: <detail>". */
  function HttpExceptionText(status: nat, detail: string): string {
    Decimal(status) + ": " + detail
  }

  /** The success message of a reload that produced `n` cards. */
  function ReloadedMessage(n: nat): string {
    "Successfully reloaded " + Decimal(n) + " cards"
  }

  /** GET /card, given what `get_cards()` returned. A fetch error becomes a 500
      carrying its message. An empty card list raises a 404 inside the `try`,
      which the generic `except Exception` turns into a 500 quoting it, so the
      endpoint never answers 404. Otherwise the card at `pick` is returned. */
  function RandomCardResponse(got: Fetched, pick: nat): (resp: Response)
    requires got.Success? && got.value != [] ==> pick < |got.value|
    ensures resp.Ok? <==> got.Success? && got.value != []
    ensures resp.Ok? ==> resp.body.CardBody? && resp.body.card in got.value
    ensures resp.HttpError? ==> resp.status == 500
    ensures got.Failure? ==> resp.detail == Message(got.error)
    ensures got == Success([]) ==> resp.detail == CardErrorPrefix + HttpExceptionText(404, NoCardsDetail)
  {
    match got
    case Failure(e) => HttpError(500, Message(e))
    case Success(cards) =>
      if cards == [] then HttpError(500, CardErrorPrefix + HttpExceptionText(404, NoCardsDetail))
      else Ok(CardBody(cards[pick]))
  }

  /** POST /cards/reload, given what the refill after clearing returned. */
  function ReloadResponse(got: Fetched): (resp: Response)
    ensures resp.Ok? <==> got.Success?
    ensures resp.Ok? ==> resp.body == Reloaded(ReloadedMessage(|got.value|))
    ensures resp.HttpError? ==> resp.status == 500
    ensures got.Failure? ==> resp.detail == ReloadErrorPrefix + Message(got.error)
  {
    match got
    case Success(cards) => Ok(Reloaded(ReloadedMessage(|cards|)))
    case Failure(e) => HttpError(500, ReloadErrorPrefix + Message(e))
  }

  /** POST /attempt, given how the database write went. */
  function AttemptResponse(cardId: string, correct: bool, write: Outcome<string>): (resp: Response)
    ensures resp.Ok? <==> write.Pass?
    ensures resp.Ok? ==> resp.body == AttemptRecorded(AttemptOkMessage, cardId, correct)
    ensures resp.HttpError? ==> resp.status == 500
    ensures write.Fail? ==> resp.detail == AttemptErrorPrefix + write.error
  {
    match write
    case Pass => Ok(AttemptRecorded(AttemptOkMessage, cardId, correct))
    case Fail(e) => HttpError(500, AttemptErrorPrefix + e)
  }

  /** An empty card set yields a 500 whose detail quotes the swallowed 404. */
  lemma EmptyCardSetIsServerError(pick: nat)
    ensures RandomCardResponse(Success([]), pick) ==
      HttpError(500, CardErrorPrefix + "404: " + NoCardsDetail)
  {
    assert Decimal(4) == "4";
    assert Decimal(40) == Decimal(4) + "0";
    assert Decimal(404) == Decimal(40) + "4";
  }

  /** The reload message determines the number of cards it reports. */
  lemma ReloadedMessageInjective(m: nat, n: nat)
    requires ReloadedMessage(m) == ReloadedMessage(n)
    ensures m == n
  {
    var prefix := "Successfully reloaded ";
    var a, b := Decimal(m), Decimal(n);
    assert |a| == |b|;
    assert a == ReloadedMessage(m)[|prefix|..|prefix| + |a|];
    assert b == ReloadedMessage(n)[|prefix|..|prefix| + |b|];
    DecimalInjective(m, n);
  }

  /** Two successful reloads report the same message only for card sets of the
      same size. */
  lemma ReloadReportsCount(a: seq<Card>, b: seq<Card>)
    requires ReloadResponse(Success(a)) == ReloadResponse(Success(b))
    ensures |a| == |b|
  {
    ReloadedMessageInjective(|a|, |b|);
  }

  /** After a successful reload, GET /card serves from the new set and does not
      consult the source again. */
  lemma CardAfterReloadUsesNewSet(cards: seq<Card>, later: Fetched, pick: nat)
    requires cards != [] ==> pick < |cards|
    ensures Lookup(Refill(None, Success(cards)), later) == Success(cards)
    ensures RandomCardResponse(Lookup(Refill(None, Success(cards)), later), pick) ==
      RandomCardResponse(Success(cards), pick)
  {
  }

  /** The application state: the card cache and the attempt table. */
  class Service {
    const cache: Cache
    const store: Store

    /** A started process: an empty cache, and the attempt table as the
        database file holds it (empty for a new file). */
    constructor (existing: seq<Attempt>)
      requires WellNumbered(existing)
      ensures fresh(cache) && fresh(store)
      ensures cache.slot == None && cache.fetches == 0
      ensures store.Valid() && store.rows == existing
    {
      cache := new Cache();
      store := new Store(existing);
    }

    /** GET /card. */
    method GetRandomCard(source: Fetched, pick: nat) returns (resp: Response)
      requires Lookup(cache.slot, source).Success? && Lookup(cache.slot, source).value != [] ==>
        pick < |Lookup(cache.slot, source).value|
      modifies cache
      ensures resp == RandomCardResponse(Lookup(old(cache.slot), source), pick)
      ensures cache.slot == Refill(old(cache.slot), source)
      ensures cache.fetches == old(cache.fetches) + (if old(cache.slot).None? then 1 else 0)
    {
      var got := cache.GetCards(source);
      resp := RandomCardResponse(got, pick);
    }

    /** POST /cards/reload. */
    method ReloadCards(source: Fetched) returns (resp: Response)
      modifies cache
      ensures resp == ReloadResponse(source)
      ensures cache.slot == Refill(None, source)
      ensures cache.fetches == old(cache.fetches) + 1
    {
      var got := cache.Reload(source);
      resp := ReloadResponse(got);
    }

    /** POST /attempt with a body that passed validation, at time `now`. */
    method RecordAttempt(cardId: string, correct: bool, now: string, write: Outcome<string>)
      returns (resp: Response)
      requires store.Valid()
      modifies store
      ensures store.Valid()
      ensures resp == AttemptResponse(cardId, correct, write)
      ensures store.rows ==
        if write.Pass? then Appended(old(store.rows), cardId, now, correct) else old(store.rows)
    {
      var saved := store.SaveCardAttempt(cardId, correct, now, write);
      resp := AttemptResponse(cardId, correct, saved);
    }
  }
}
