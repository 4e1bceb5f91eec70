/**
 * The validation pass at the end of config_parse: every ssl block needs a
 * private key and a certificate (only when SSL_SUPPORT is compiled in),
 * every site needs a document root, every handler needs a type, and each
 * handler's settings receive its site's document root.
 */
module ConfigValidate {
  import opened Wrappers
  import opened ConfigModel

  predicate SslComplete(ssl: bool, b: Bind) {
    ssl && b.ssl.Some? ==> b.ssl.value.key.Some? && b.ssl.value.cert.Some?
  }

  predicate SiteComplete(s: Site) {
    s.root.Some? && forall k :: 0 <= k < |s.handlers| ==> s.handlers[k].handlerType.Some?
  }

  predicate BindComplete(ssl: bool, b: Bind) {
    SslComplete(ssl, b) && forall j :: 0 <= j < |b.sites| ==> SiteComplete(b.sites[j])
  }

  /** What the validation pass demands of the parsed binds. */
  predicate Complete(ssl: bool, bs: seq<Bind>) {
    forall i :: 0 <= i < |bs| ==> BindComplete(ssl, bs[i])
  }

  /** A site whose handlers carry its document root. */
  function ResolveSite(s: Site): Site {
    s.(handlers := seq(|s.handlers|, k requires 0 <= k < |s.handlers| => s.handlers[k].(documentRoot := s.root)))
  }

  function ResolveBind(b: Bind): Bind {
    b.(sites := seq(|b.sites|, j requires 0 <= j < |b.sites| => ResolveSite(b.sites[j])))
  }

  function Resolve(bs: seq<Bind>): seq<Bind> {
    seq(|bs|, i requires 0 <= i < |bs| => ResolveBind(bs[i]))
  }

  /** A site whose handlers all have a type and its site's (present) document root. */
  predicate SiteReady(s: Site) {
    SiteComplete(s) && forall k :: 0 <= k < |s.handlers| ==> s.handlers[k].documentRoot == s.root
  }

  /** A configuration as config_parse returns it: validated, with every handler's document root filled in. */
  predicate Ready(ssl: bool, bs: seq<Bind>) {
    forall i :: 0 <= i < |bs| ==> SslComplete(ssl, bs[i]) && forall j :: 0 <= j < |bs[i].sites| ==> SiteReady(bs[i].sites[j])
  }

  /** The outcome of the validation pass: None where config_parse reports an error, else the patched binds. */
  function Validated(ssl: bool, bs: seq<Bind>): (r: Option<seq<Bind>>)
    ensures r.Some? <==> Complete(ssl, bs)
    ensures r.Some? ==> Ready(ssl, r.value)
  {
    if Complete(ssl, bs) then Some(Resolve(bs)) else None
  }

  /** Validation changes nothing but the handlers' document roots, which become their site's root. */
  lemma ValidatedOnlyFillsRoots(ssl: bool, bs: seq<Bind>, i: nat, j: nat, k: nat)
    requires Validated(ssl, bs).Some?
    requires i < |bs| && j < |bs[i].sites| && k < |bs[i].sites[j].handlers|
    ensures var c := Validated(ssl, bs).value;
      |c| == |bs| && c[i].addr == bs[i].addr && c[i].port == bs[i].port && c[i].ssl == bs[i].ssl
      && |c[i].sites| == |bs[i].sites| && c[i].sites[j].hostnames == bs[i].sites[j].hostnames
      && c[i].sites[j].root == bs[i].sites[j].root && |c[i].sites[j].handlers| == |bs[i].sites[j].handlers|
      && c[i].sites[j].handlers[k] == bs[i].sites[j].handlers[k].(documentRoot := bs[i].sites[j].root)
  {
  }

  /** A validated configuration passes validation again unchanged. */
  lemma ValidatedIdempotent(ssl: bool, bs: seq<Bind>)
    requires Validated(ssl, bs).Some?
    ensures Validated(ssl, Validated(ssl, bs).value) == Validated(ssl, bs)
  {
    var c := Validated(ssl, bs).value;
    ReadyComplete(ssl, c);
    forall i | 0 <= i < |c|
      ensures ResolveBind(c[i]) == c[i]
    {
      forall j | 0 <= j < |c[i].sites|
        ensures ResolveSite(c[i].sites[j]) == c[i].sites[j]
      {
        var s := c[i].sites[j];
        assert SiteReady(s);
        assert ResolveSite(s).handlers == s.handlers;
      }
      assert ResolveBind(c[i]).sites == c[i].sites;
    }
    assert Resolve(c) == c;
  }

  lemma ReadyComplete(ssl: bool, bs: seq<Bind>)
    requires Ready(ssl, bs)
    ensures Complete(ssl, bs)
  {
  }

  /** The handler loop of the validation pass: each handler needs a type and receives the site's root. */
  method ValidateSite(s: Site) returns (r: Option<Site>)
    ensures r == (if SiteComplete(s) then Some(ResolveSite(s)) else None)
  {
    if s.root.None? {
      return None;
    }
    var handlers := s.handlers;
    var k := 0;
    while k < |handlers|
      invariant 0 <= k <= |handlers| && |handlers| == |s.handlers|
      invariant forall m :: 0 <= m < k ==> s.handlers[m].handlerType.Some?
      invariant forall m :: 0 <= m < k ==> handlers[m] == s.handlers[m].(documentRoot := s.root)
      invariant forall m :: k <= m < |handlers| ==> handlers[m] == s.handlers[m]
    {
      if handlers[k].handlerType.None? {
        return None;
      }
      handlers := handlers[k := handlers[k].(documentRoot := s.root)];
      k := k + 1;
    }
    assert handlers == ResolveSite(s).handlers;
    r := Some(s.(handlers := handlers));
  }

  /** The ssl checks and the site loop for one bind. */
  method ValidateBind(ssl: bool, b: Bind) returns (r: Option<Bind>)
    ensures r == (if BindComplete(ssl, b) then Some(ResolveBind(b)) else None)
  {
    if ssl && b.ssl.Some? {
      if b.ssl.value.key.None? {
        return None;
      }
      if b.ssl.value.cert.None? {
        return None;
      }
    }
    var sites := b.sites;
    var j := 0;
    while j < |sites|
      invariant 0 <= j <= |sites| && |sites| == |b.sites|
      invariant forall m :: 0 <= m < j ==> SiteComplete(b.sites[m]) && sites[m] == ResolveSite(b.sites[m])
      invariant forall m :: j <= m < |sites| ==> sites[m] == b.sites[m]
    {
      var site := ValidateSite(sites[j]);
      if site.None? {
        return None;
      }
      sites := sites[j := site.value];
      j := j + 1;
    }
    assert sites == ResolveBind(b).sites;
    r := Some(b.(sites := sites));
  }

  /** The validation pass over all binds, patching them in place. */
  method ValidateConfig(ssl: bool, bs: seq<Bind>) returns (r: Option<seq<Bind>>)
    ensures r == Validated(ssl, bs)
  {
    var binds := bs;
    var i := 0;
    while i < |binds|
      invariant 0 <= i <= |binds| && |binds| == |bs|
      invariant forall m :: 0 <= m < i ==> BindComplete(ssl, bs[m]) && binds[m] == ResolveBind(bs[m])
      invariant forall m :: i <= m < |binds| ==> binds[m] == bs[m]
    {
      var b := ValidateBind(ssl, binds[i]);
      if b.None? {
        return None;
      }
      binds := binds[i := b.value];
      i := i + 1;
    }
    assert binds == Resolve(bs);
    r := Some(binds);
  }
}
