/**
  The HTTP vocabulary the handlers and middleware speak, as Go's net/http behaves: a response is
  the ordered log of what a handler did to its ResponseWriter. The first status written is the
  one the client receives (later `WriteHeader` calls are ignored), and cookies set after that
  point are never sent.
*/
module Http {
  import opened Wrappers

  const StatusOK: int := 200
  const StatusCreated: int := 201
  const StatusSeeOther: int := 303
  const StatusBadRequest: int := 400
  const StatusUnauthorized: int := 401
  const StatusForbidden: int := 403
  const StatusNotFound: int := 404
  const StatusMethodNotAllowed: int := 405
  const StatusInternalServerError: int := 500

  /** The SameSite attribute (`http.SameSiteLaxMode`, `http.SameSiteStrictMode`). */
  datatype SameSite = SameSiteLax | SameSiteStrict

  /** A `Set-Cookie` header; `expires` is in seconds on the model's clock. */
  datatype Cookie = Cookie(
    name: string,
    value: string,
    path: string,
    expires: int,
    httpOnly: bool,
    secure: bool,
    sameSite: SameSite)

  /** The request context handed to the wrapped handler: unchanged, or with one string value added. */
  datatype Binding = Unbound | Bound(key: string, value: string)

  datatype Action =
    | Write(status: int)                        // jsonutils.WriteError / WriteJSON
    | SetCookie(cookie: Cookie)                 // http.SetCookie
    | Redirect(location: string, status: int)   // http.Redirect
    | Serve(binding: Binding)                   // next.ServeHTTP

  type Log = seq<Action>

  /**
    The status the client receives, when the log decides it: the first `Write` or `Redirect`;
    None when the wrapped handler runs first (it writes its own status); 200 when nothing is
    written at all.
  */
  function FirstStatus(log: Log): Option<int> {
    if log == [] then Some(StatusOK)
    else
      match log[0]
      case Write(s) => Some(s)
      case Redirect(_, s) => Some(s)
      case Serve(_) => None
      case SetCookie(_) => FirstStatus(log[1..])
  }

  /** The cookies sent: those set before the first action that writes the header. */
  function DeliveredCookies(log: Log): seq<Cookie> {
    if log == [] then []
    else
      match log[0]
      case SetCookie(c) => [c] + DeliveredCookies(log[1..])
      case _ => []
  }

  /** The statuses a log writes, in order (all but the first are ignored by net/http). */
  function Statuses(log: Log): seq<int> {
    if log == [] then []
    else
      match log[0]
      case Write(s) => [s] + Statuses(log[1..])
      case Redirect(_, s) => [s] + Statuses(log[1..])
      case _ => Statuses(log[1..])
  }

  function SetCookies(cs: seq<Cookie>): (log: Log)
    ensures |log| == |cs|
    ensures forall i :: 0 <= i < |cs| ==> log[i] == SetCookie(cs[i])
  {
    if cs == [] then [] else [SetCookie(cs[0])] + SetCookies(cs[1..])
  }

  /** Cookies set before the status neither change it nor are lost. */
  lemma {:induction false} FirstStatusAfterCookies(cs: seq<Cookie>, rest: Log)
    ensures FirstStatus(SetCookies(cs) + rest) == FirstStatus(rest)
    decreases |cs|
  {
    var log := SetCookies(cs) + rest;
    if cs == [] {
      assert log == rest;
    } else {
      var tail := SetCookies(cs[1..]) + rest;
      assert log == [SetCookie(cs[0])] + tail;
      assert log[1..] == tail;
      FirstStatusAfterCookies(cs[1..], rest);
    }
  }

  lemma {:induction false} CookiesBeforeStatusDelivered(cs: seq<Cookie>, rest: Log)
    ensures DeliveredCookies(SetCookies(cs) + rest) == cs + DeliveredCookies(rest)
    decreases |cs|
  {
    var log := SetCookies(cs) + rest;
    if cs == [] {
      assert log == rest;
    } else {
      var tail := SetCookies(cs[1..]) + rest;
      assert log == [SetCookie(cs[0])] + tail;
      assert log[1..] == tail;
      CookiesBeforeStatusDelivered(cs[1..], rest);
      assert [cs[0]] + (cs[1..] + DeliveredCookies(rest)) == cs + DeliveredCookies(rest);
    }
  }

  /** Whatever follows a status write changes neither the status nor the cookies sent. */
  lemma WriteDecides(status: int, rest: Log)
    ensures FirstStatus([Write(status)] + rest) == Some(status)
    ensures DeliveredCookies([Write(status)] + rest) == []
  {
  }
}
