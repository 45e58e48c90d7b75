/** The request URL of the Google translator. */
module GoogleUrl {
  import opened PyValues
  import opened PyStrings

  /** The host every request goes to. */
  const Host := "translate.google.cn"

  /** The host the `host` option falls back to; the value read is never used. */
  const DefaultHost := "translate.googleapis.com"

  /** The endpoint's path on the host. */
  const Endpoint := "/translate_a/single"

  /** The query parameters of a request, in the order of the source's URL template:
      the client, the languages as str() prints them, the ten requested data types,
      and the query text as `quote` returned it. */
  function QueryParams(sl: Option<string>, tl: Option<string>, quoted: string): seq<string>
  {
    ["client=gtx", "sl=" + Show(sl), "tl=" + Show(tl),
     "dt=at", "dt=bd", "dt=ex", "dt=ld", "dt=md", "dt=qca", "dt=rw", "dt=rm", "dt=ss", "dt=t",
     "q=" + quoted]
  }

  /** get_url: the `host` option is read and then overwritten with the fixed host; the
      languages are inserted unencoded, and only the query goes through `quote`
      (url_quote with plus = True, which this model leaves abstract). Read back, the
      URL names translate.google.cn whatever the options, and its query string is the
      parameters joined with '&'. */
  function GetUrl(options: map<string, string>, sl: Option<string>, tl: Option<string>,
                  qry: string, quote: string -> string): (url: string)
    ensures HostOf(url) == Host
    ensures QueryOf(url) == Join("&", QueryParams(sl, tl, quote(qry)))
  {
    var configured := if "host" in options then options["host"] else DefaultHost;
    var httpHost := Host;
    var query := Join("&", QueryParams(sl, tl, quote(qry)));
    assert '/' !in Host && '?' !in Host && '?' !in Endpoint;
    HostOfParts(Host, Endpoint, query);
    QueryOfParts(Host, Endpoint, query);
    "https://" + httpHost + Endpoint + "?" + query
  }

  /** The host of an https URL: what lies between "https://" and the next '/'. */
  function HostOf(url: string): string
  {
    if |url| >= 8 && url[..8] == "https://" then Split(url[8..], '/')[0] else ""
  }

  /** The query string of a URL: what follows the first '?'. */
  function QueryOf(url: string): string
  {
    After(url, '?')
  }

  /** The host read back from an https URL is the one written into it. */
  lemma HostOfParts(host: string, path: string, query: string)
    requires '/' !in host && |path| > 0 && path[0] == '/'
    ensures HostOf("https://" + host + path + "?" + query) == host
  {
    var url := "https://" + host + path + "?" + query;
    var rest := path[1..] + "?" + query;
    assert url == "https://" + (host + ['/'] + rest);
    assert url[..8] == "https://";
    assert url[8..] == host + ['/'] + rest;
    SplitAfterPiece(host, '/', rest);
  }

  /** The query read back from a URL is the one written after the first '?'. */
  lemma QueryOfParts(host: string, path: string, query: string)
    requires '?' !in host && '?' !in path
    ensures QueryOf("https://" + host + path + "?" + query) == query
  {
    assert '?' !in "https://";
    var before := "https://" + host + path;
    assert '?' !in before;
    AfterPiece(before, '?', query);
  }

  /** The `host` option has no effect on the URL. */
  lemma UrlIgnoresHostOption(options1: map<string, string>, options2: map<string, string>,
                             sl: Option<string>, tl: Option<string>, qry: string, quote: string -> string)
    ensures GetUrl(options1, sl, tl, qry, quote) == GetUrl(options2, sl, tl, qry, quote)
  {
  }

  /** Reading the query back: when the languages and the quoted query hold no '&'
      (url_quote escapes it), the query string splits into exactly the parameters
      above, so sl and tl appear verbatim and the query text as `quote` made it. */
  lemma UrlQuery(options: map<string, string>, sl: Option<string>, tl: Option<string>,
                 qry: string, quote: string -> string)
    requires '&' !in Show(sl) && '&' !in Show(tl) && '&' !in quote(qry)
    ensures Split(QueryOf(GetUrl(options, sl, tl, qry, quote)), '&') == QueryParams(sl, tl, quote(qry))
  {
    var params := QueryParams(sl, tl, quote(qry));
    assert '&' !in "sl=" && '&' !in "tl=" && '&' !in "q=";
    assert forall i :: 0 <= i < |params| ==> '&' !in params[i];
    SplitJoin(params, '&');
  }
}
