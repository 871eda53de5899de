/** The proxy "pool" of proxies.py: one provider URL assembled from the
    credentials, and a getter that hands the same URL out for both schemes.
    Rotation, if any, happens at the provider; the pool itself never
    rotates. */
module Proxies {
  import opened Maybe
  import opened Text

  /** A constructor argument as Python formats it: `os.getenv` may hand back
      `None`, which an f-string renders as `None` */
  datatype Setting = Unset | Set(text: string)

  function Render(s: Setting): string {
    match s
    case Unset => "None"
    case Set(t) => t
  }

  datatype ProxyPool = ProxyPool(proxyUrl: string, index: int)

  /** The URL of the constructor: scheme, credentials, host and port */
  function ProxyUrl(username: Setting, password: Setting, domain: Setting, port: Setting): (u: string)
    ensures |u| >= 7 && u[..7] == "http://"
    ensures u[7..] == Render(username) + ":" + Render(password) + "@" + Render(domain) + ":" + Render(port)
  {
    "http://" + Render(username) + ":" + Render(password) + "@" + Render(domain) + ":" + Render(port)
  }

  /** The constructor. `draw` is the value of `random.randint(0, 99)`, kept
      as `index` and never read again. */
  function NewPool(username: Setting, password: Setting, domain: Setting, port: Setting, draw: int): (p: ProxyPool)
    requires 0 <= draw <= 99
    ensures p.proxyUrl == ProxyUrl(username, password, domain, port)
    ensures 0 <= p.index <= 99
  {
    ProxyPool(ProxyUrl(username, password, domain, port), draw)
  }

  /** The proxy configuration handed to the HTTP client */
  function GetProxy(p: ProxyPool): (m: map<string, string>)
    ensures m.Keys == {"http", "https"}
    ensures m["http"] == p.proxyUrl && m["https"] == p.proxyUrl
  {
    map["http" := p.proxyUrl, "https" := p.proxyUrl]
  }

  /** Reads user, password, host and port back out of a proxy URL */
  function ParseProxyUrl(u: string): Option<(string, string, string, string)> {
    if |u| < 7 || u[..7] != "http://" then None
    else match SplitAt(u[7..], ':')
      case None => None
      case Some(userRest) =>
        match SplitAt(userRest.1, '@')
        case None => None
        case Some(passRest) =>
          match SplitAt(passRest.1, ':')
          case None => None
          case Some(hostPort) => Some((userRest.0, passRest.0, hostPort.0, hostPort.1))
  }

  /** The assembled URL loses nothing: when the user name and host hold no
      `:` and the password no `@`, every part can be read back */
  lemma {:induction false} ProxyUrlRoundTrip(user: string, pass: string, host: string, port: string)
    requires ':' !in user && '@' !in pass && ':' !in host
    ensures ParseProxyUrl(ProxyUrl(Set(user), Set(pass), Set(host), Set(port))) == Some((user, pass, host, port))
  {
    var u := ProxyUrl(Set(user), Set(pass), Set(host), Set(port));
    assert u[7..] == user + [':'] + (pass + ['@'] + (host + [':'] + port));
    SplitAtJoin(user, ':', pass + ['@'] + (host + [':'] + port));
    SplitAtJoin(pass, '@', host + [':'] + port);
    SplitAtJoin(host, ':', port);
  }
}
