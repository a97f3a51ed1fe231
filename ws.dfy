/** `resolveWebsocketURL`: rewrites an HTTP(S) URL into the matching
    WebSocket URL, `ws` for `http` and `wss` for `https` (the two URI
    schemes of section 3 of RFC 6455). Strings are sequences of characters. */
module Ws {

  /** The two conditional rewrites, applied one after the other as written:
      first `http://` to `ws://`, then, on the possibly rewritten string,
      `https://` to `wss://`. */
  function ResolveWebsocketUrl(url: string): (r: string)
    ensures "http://" <= url ==> r == "ws://" + url[7..] && |r| == |url| - 2
    ensures "https://" <= url ==> r == "wss://" + url[8..] && |r| == |url| - 2
    ensures !("http://" <= url) && !("https://" <= url) ==> r == url
  {
    assert "http://" <= url ==> url[4] == ':';
    assert "https://" <= url ==> url[4] == 's';
    var u := if "http://" <= url then "ws://" + url[7..] else url;
    assert "http://" <= url ==> u[0] == 'w';
    if "https://" <= u then "wss://" + u[8..] else u
  }

  /** At most one rewrite fires: no string starts with both prefixes, and the
      output of the first rewrite does not start with `https://`. */
  lemma {:induction false} AtMostOneRewrite(url: string)
    ensures !("http://" <= url && "https://" <= url)
    ensures forall rest: string :: !("https://" <= "ws://" + rest)
  {
    assert "http://" <= url ==> url[4] == ':';
    forall rest: string ensures !("https://" <= "ws://" + rest) {
      assert ("ws://" + rest)[0] == 'w';
    }
  }

  /** A result never starts with `http://` or `https://`, so it is left alone
      by a second application. */
  lemma {:induction false} ResolvedIsFinal(url: string)
    ensures !("http://" <= ResolveWebsocketUrl(url))
    ensures !("https://" <= ResolveWebsocketUrl(url))
  {
    var r := ResolveWebsocketUrl(url);
    if "http://" <= url || "https://" <= url {
      assert r[0] == 'w';
    }
  }

  /** Resolving twice is resolving once. */
  lemma {:induction false} ResolveIdempotent(url: string)
    ensures ResolveWebsocketUrl(ResolveWebsocketUrl(url)) == ResolveWebsocketUrl(url)
  {
    ResolvedIsFinal(url);
  }

  /** The worked examples: `http` and `https` URLs are rewritten, any other
      scheme is kept. */
  lemma Examples()
    ensures ResolveWebsocketUrl("http://a/b") == "ws://a/b"
    ensures ResolveWebsocketUrl("https://a/b") == "wss://a/b"
    ensures ResolveWebsocketUrl("ftp://x") == "ftp://x"
  {
    assert "http://a/b"[7..] == "a/b";
    assert "https://a/b"[8..] == "a/b";
    assert "ftp://x"[0] == 'f';
  }
}
