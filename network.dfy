/**
  What a provider sees of one HTTP exchange, and the checks every provider
  applies to it before using the payload.
*/
module Network {
  import opened Wrappers
  import opened Exceptions

  /**
    The outcome of `session.data(for:)`. `payload` is the body decoded into
    whatever the caller expects (JSON, UTF-8 text), or `None` when that
    decoding fails.
  */
  datatype Response<T> =
    | TransportFailed
    | NotHttp
    | Http(status: int, payload: Option<T>)

  /** A reply that every provider accepts: HTTP 200 with a body that decodes. */
  predicate Usable<T>(r: Response<T>) {
    r.Http? && r.status == 200 && r.payload.Some?
  }

  /**
    The order the JSON-based providers (vanilla, Fabric, Forge) check a reply
    in: the transport, then the response kind, then the status, then decoding.
  */
  function Receive<T>(r: Response<T>): (out: Outcome<T>)
    ensures out.Ok? <==> Usable(r)
    ensures out.Ok? ==> out.value == r.payload.value
    ensures r.TransportFailed? ==> out == Err(TransportError)
    ensures r.NotHttp? ==> out == Err(ServerDownload(NoHttpResponse))
    ensures r.Http? && r.status != 200 ==> out == Err(ServerDownload(ErrorStatus))
    ensures r.Http? && r.status == 200 && r.payload.None? ==> out == Err(ServerDownload(InvalidData))
  {
    match r
    case TransportFailed => Err(TransportError)
    case NotHttp => Err(ServerDownload(NoHttpResponse))
    case Http(status, payload) =>
      if status != 200 then Err(ServerDownload(ErrorStatus))
      else if payload.None? then Err(ServerDownload(InvalidData))
      else Ok(payload.value)
  }

  /**
    The order the HTML-scraping providers (NeoForged, Quilt) check a reply in:
    the body is decoded as UTF-8 before the status is looked at, so a reply
    that fails both reports invalid data.
  */
  function ReceiveDecodedFirst<T>(r: Response<T>): (out: Outcome<T>)
    ensures out.Ok? <==> Usable(r)
    ensures out.Ok? ==> out.value == r.payload.value
    ensures r.TransportFailed? ==> out == Err(TransportError)
    ensures r.NotHttp? ==> out == Err(ServerDownload(NoHttpResponse))
    ensures r.Http? && r.payload.None? ==> out == Err(ServerDownload(InvalidData))
    ensures r.Http? && r.payload.Some? && r.status != 200 ==> out == Err(ServerDownload(ErrorStatus))
  {
    match r
    case TransportFailed => Err(TransportError)
    case NotHttp => Err(ServerDownload(NoHttpResponse))
    case Http(status, payload) =>
      if payload.None? then Err(ServerDownload(InvalidData))
      else if status != 200 then Err(ServerDownload(ErrorStatus))
      else Ok(payload.value)
  }

  /** The two orders differ only on a reply that is both an error status and undecodable. */
  lemma ReceiveOrdersAgree<T>(r: Response<T>)
    ensures Receive(r) == ReceiveDecodedFirst(r)
        <==> !(r.Http? && r.status != 200 && r.payload.None?)
  {
  }
}
