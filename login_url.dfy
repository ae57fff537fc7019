/**
 * `getAppLoginUrl`: where an unauthenticated user is sent. The auth store's
 * fields and the two configured URLs are explicit parameters; a configured URL
 * that is unset is `None`.
 */
module LoginUrl {
  import opened Wrappers

  /** The fields of the auth store that the login URL reads. */
  datatype AuthSession = AuthSession(shop: string, host: string, isEmbedded: bool)

  /** How a template literal renders a value that may be undefined: a set value as itself. */
  function Interpolate(v: Option<string>): (text: string)
    ensures v.Some? ==> text == v.value
    ensures v.None? ==> text == "undefined"
  {
    match v
    case Some(s) => s
    case None => "undefined"
  }

  /**
   * The login URL: for an embedded session the launchpad with the shop and
   * host as query parameters, otherwise the plain login URL as configured.
   */
  function AppLoginUrl(session: AuthSession, embeddedLaunchpadUrl: Option<string>, loginUrl: Option<string>): (url: Option<string>)
    ensures session.isEmbedded ==> url.Some? && Interpolate(embeddedLaunchpadUrl) + "/?shop=" <= url.value
    ensures !session.isEmbedded ==> url == loginUrl
  {
    if session.isEmbedded then
      Some(Interpolate(embeddedLaunchpadUrl) + "/?shop=" + session.shop + "&host=" + session.host)
    else
      loginUrl
  }

  /** Outside an embedded session the shop and host play no part. */
  lemma NotEmbeddedIgnoresShopAndHost(a: AuthSession, b: AuthSession, embeddedLaunchpadUrl: Option<string>, loginUrl: Option<string>)
    requires !a.isEmbedded && !b.isEmbedded
    ensures AppLoginUrl(a, embeddedLaunchpadUrl, loginUrl) == AppLoginUrl(b, embeddedLaunchpadUrl, loginUrl)
  {
  }

  /** "https://lp.example" with shop "acme" and host "h1". */
  lemma EmbeddedExample()
    ensures AppLoginUrl(AuthSession("acme", "h1", true), Some("https://lp.example"), Some("https://login.example"))
      == Some("https://lp.example/?shop=acme&host=h1")
  {
    assert "https://lp.example" + "/?shop=" + "acme" + "&host=" + "h1" == "https://lp.example/?shop=acme&host=h1";
  }

  /**
   * An embedded URL determines its session: when neither shop contains `&`,
   * equal URLs come from the same shop and the same host.
   */
  lemma {:induction false} EmbeddedUrlDeterminesShopAndHost(a: AuthSession, b: AuthSession, embeddedLaunchpadUrl: Option<string>)
    requires a.isEmbedded && b.isEmbedded
    requires '&' !in a.shop && '&' !in b.shop
    requires AppLoginUrl(a, embeddedLaunchpadUrl, None) == AppLoginUrl(b, embeddedLaunchpadUrl, None)
    ensures a.shop == b.shop && a.host == b.host
  {
    var prefix := Interpolate(embeddedLaunchpadUrl) + "/?shop=";
    var x := a.shop + "&host=" + a.host;
    var y := b.shop + "&host=" + b.host;
    assert AppLoginUrl(a, embeddedLaunchpadUrl, None).value == prefix + x;
    assert AppLoginUrl(b, embeddedLaunchpadUrl, None).value == prefix + y;
    assert x == (prefix + x)[|prefix|..];
    assert x == y;
    // the first `&` of either side ends the shop
    assert x[|a.shop|] == '&' && y[|b.shop|] == '&';
    assert |a.shop| == |b.shop|;
    assert a.shop == x[..|a.shop|];
    assert a.host == x[|a.shop| + 6..];
  }
}
