/** The parts of Go's `net/url` and `net/http` types that the load balancer reads
    or writes. Only the fields the core touches, or must leave untouched, appear. */
module Http {

  /** A parsed `url.URL`. `user` stands for the userinfo; the raw and opaque
      variants of the fields are not modelled. */
  datatype Url = Url(
    scheme: string,
    user: string,
    host: string,
    path: string,
    rawQuery: string,
    fragment: string)

  /** The message of the error that `url.Parse` returns. */
  type ParseError = string

  type Byte = x: int | 0 <= x < 256

  /** An inbound `http.Request`, which the proxy rewrites in place.
      `verb` is Go's `Method` field (`method` is a Dafny keyword). */
  class Request {
    var verb: string
    var url: Url
    var host: string
    var header: map<string, seq<string>>
    var body: seq<Byte>

    constructor (verb: string, url: Url, host: string, header: map<string, seq<string>>, body: seq<Byte>)
      ensures this.verb == verb && this.url == url && this.host == host
      ensures this.header == header && this.body == body
    {
      this.verb := verb;
      this.url := url;
      this.host := host;
      this.header := header;
      this.body := body;
    }
  }
}
