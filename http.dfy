/** The part of an Express response the handlers change: the status code,
    the headers set with `res.setHeader` and what is sent as the body. */
module Http {

  datatype Body =
    | NoBody
    | TextBody(text: string)
    /** The body of the upstream response, piped through. */
    | Piped(url: string)

  class Response {
    var status: int
    var headers: map<string, seq<string>>
    var body: Body

    /** A fresh response: status 200, no headers, nothing sent. */
    constructor ()
      ensures status == 200 && headers == map[] && body == NoBody
    {
      status, headers, body := 200, map[], NoBody;
    }

    /** `res.setHeader(name, values)`: replaces that header. */
    method SetHeader(name: string, values: seq<string>)
      modifies this
      ensures headers == old(headers)[name := values]
      ensures status == old(status) && body == old(body)
    {
      headers := headers[name := values];
    }

    /** `res.status(code).send(text)`. */
    method StatusSend(code: int, text: string)
      modifies this
      ensures status == code && body == TextBody(text)
      ensures headers == old(headers)
    {
      status, body := code, TextBody(text);
    }

    /** `stream.pipe(res)`. */
    method Pipe(url: string)
      modifies this
      ensures body == Piped(url)
      ensures status == old(status) && headers == old(headers)
    {
      body := Piped(url);
    }
  }
}
