/**
  * The single-page front end (assets/app.js): HTML escaping, the hash
  * router, the permission-driven menu, the login loop that tries several
  * payload shapes, the session state and the query parameters of GET calls.
  */
module Frontend {
  import opened Wrappers
  import opened JsString
  import opened Browser

  // ---------------------------------------------------------------------
  // JSON values as the backend returns them, with JavaScript truthiness.
  // ---------------------------------------------------------------------

  /** A JavaScript value as parsed from JSON (numbers restricted to integers), plus `undefined`. */
  datatype Json =
    | Undefined
    | Null
    | Bool(b: bool)
    | Num(n: int)
    | Str(s: string)
    | Arr(items: seq<Json>)
    | Obj(fields: map<string, Json>)

  /** JavaScript truthiness: `undefined`, `null`, `false`, `0` and `''` are falsy. */
  predicate Truthy(v: Json) {
    match v
    case Undefined => false
    case Null => false
    case Bool(b) => b
    case Num(n) => n != 0
    case Str(s) => s != []
    case Arr(_) => true
    case Obj(_) => true
  }

  /** `v?.key`: the property of an object, `undefined` when it is missing or `v` is no object. */
  function Get(v: Json, key: string): Json {
    if v.Obj? && key in v.fields then v.fields[key] else Undefined
  }

  /** `a || b`. */
  function Or(a: Json, b: Json): Json {
    if Truthy(a) then a else b
  }

  /** The decimal digits of `n`. */
  function NatToString(n: nat): (r: string)
    ensures r != []
    decreases n
  {
    var d := ['0' + (n % 10) as char];
    if n < 10 then d else NatToString(n / 10) + d
  }

  /** `String(v)`: arrays are joined with commas, their `null`/`undefined` elements reading as `''`. */
  function ToJsString(v: Json): string
    decreases v, 1
  {
    match v
    case Undefined => "undefined"
    case Null => "null"
    case Bool(b) => if b then "true" else "false"
    case Num(n) => if n < 0 then "-" + NatToString(-n) else NatToString(n)
    case Str(s) => s
    case Arr(items) => if items == [] then "" else ElementsString(v, 0)
    case Obj(_) => "[object Object]"
  }

  /** The elements of the array `v` from index `i` on, as `Array.prototype.join` writes them. */
  function ElementsString(v: Json, i: nat): string
    requires v.Arr? && i < |v.items|
    decreases v, 0, |v.items| - i
  {
    var e := v.items[i];
    var s := if e.Null? || e.Undefined? then "" else ToJsString(e);
    if i + 1 == |v.items| then s else s + "," + ElementsString(v, i + 1)
  }

  // ---------------------------------------------------------------------
  // escapeHtml: the five HTML-special characters become character references.
  // ---------------------------------------------------------------------

  /** The characters `escapeHtml` replaces. */
  predicate IsHtmlSpecial(c: char) {
    c == '&' || c == '<' || c == '>' || c == '"' || c == '\''
  }

  /** The replacement of one character. */
  function EscapeChar(c: char): (r: string)
    ensures r != []
    ensures forall i :: 0 <= i < |r| ==> r[i] != '<' && r[i] != '>' && r[i] != '"' && r[i] != '\''
  {
    match c
    case '&' => "&amp;"
    case '<' => "&lt;"
    case '>' => "&gt;"
    case '"' => "&quot;"
    case '\'' => "&#039;"
    case _ => [c]
  }

  /**
    * `escapeHtml(s)`: the result holds none of `<`, `>`, `"`, `'`, and a
    * string without special characters comes back unchanged.
    */
  function EscapeHtml(s: string): (r: string)
    ensures forall i :: 0 <= i < |r| ==> r[i] != '<' && r[i] != '>' && r[i] != '"' && r[i] != '\''
    ensures (forall i :: 0 <= i < |s| ==> !IsHtmlSpecial(s[i])) ==> r == s
  {
    if s == [] then []
    else
      var head, tail := EscapeChar(s[0]), EscapeHtml(s[1..]);
      assert forall i :: |head| <= i < |head + tail| ==> (head + tail)[i] == tail[i - |head|];
      head + tail
  }

  /** Escaping grows the text by the length of each reference minus one. */
  lemma {:induction false} EscapeHtmlLength(s: string)
    ensures |EscapeHtml(s)| == |s| + 4 * Count(s, '&') + 3 * Count(s, '<') + 3 * Count(s, '>')
                              + 5 * Count(s, '"') + 5 * Count(s, '\'')
  {
    if s != [] {
      EscapeHtmlLength(s[1..]);
    }
  }

  /** Decodes the five references `escapeHtml` produces; every other character stands for itself. */
  function UnescapeHtml(s: string): string
    decreases |s|
  {
    if s == [] then []
    else if StartsWith(s, "&amp;") then "&" + UnescapeHtml(s[5..])
    else if StartsWith(s, "&lt;") then "<" + UnescapeHtml(s[4..])
    else if StartsWith(s, "&gt;") then ">" + UnescapeHtml(s[4..])
    else if StartsWith(s, "&quot;") then "\"" + UnescapeHtml(s[6..])
    else if StartsWith(s, "&#039;") then "'" + UnescapeHtml(s[6..])
    else [s[0]] + UnescapeHtml(s[1..])
  }

  /** Decoding an escaped character in front of anything gives the character back first. */
  lemma UnescapeChar(c: char, rest: string)
    ensures UnescapeHtml(EscapeChar(c) + rest) == [c] + UnescapeHtml(rest)
  {
    var s := EscapeChar(c) + rest;
    if c == '&' {
      assert s[..5] == "&amp;" && s[5..] == rest;
    } else if c == '<' {
      assert s[1] == 'l' && s[..4] == "&lt;" && s[4..] == rest;
      assert !StartsWith(s, "&amp;") by { if |s| >= 5 { assert s[..5][1] == s[1]; } }
    } else if c == '>' {
      assert s[1] == 'g' && s[..4] == "&gt;" && s[4..] == rest;
      assert !StartsWith(s, "&amp;") by { if |s| >= 5 { assert s[..5][1] == s[1]; } }
      assert !StartsWith(s, "&lt;") by { if |s| >= 4 { assert s[..4][1] == s[1]; } }
    } else if c == '"' {
      assert s[1] == 'q' && s[..6] == "&quot;" && s[6..] == rest;
      assert !StartsWith(s, "&amp;") by { if |s| >= 5 { assert s[..5][1] == s[1]; } }
      assert !StartsWith(s, "&lt;") by { if |s| >= 4 { assert s[..4][1] == s[1]; } }
      assert !StartsWith(s, "&gt;") by { if |s| >= 4 { assert s[..4][1] == s[1]; } }
    } else if c == '\'' {
      assert s[1] == '#' && s[..6] == "&#039;" && s[6..] == rest;
      assert !StartsWith(s, "&amp;") by { if |s| >= 5 { assert s[..5][1] == s[1]; } }
      assert !StartsWith(s, "&lt;") by { if |s| >= 4 { assert s[..4][1] == s[1]; } }
      assert !StartsWith(s, "&gt;") by { if |s| >= 4 { assert s[..4][1] == s[1]; } }
      assert !StartsWith(s, "&quot;") by { if |s| >= 6 { assert s[..6][1] == s[1]; } }
    } else {
      assert s[0] == c && s[1..] == rest;
      assert !StartsWith(s, "&amp;") && !StartsWith(s, "&lt;") && !StartsWith(s, "&gt;")
        && !StartsWith(s, "&quot;") && !StartsWith(s, "&#039;") by {
        if |s| >= 4 { assert s[..4][0] == s[0]; }
      }
    }
  }

  /** `escapeHtml` loses nothing: decoding the references gives back the input. */
  lemma {:induction false} EscapeHtmlRoundTrip(s: string)
    ensures UnescapeHtml(EscapeHtml(s)) == s
  {
    if s != [] {
      EscapeHtmlRoundTrip(s[1..]);
      UnescapeChar(s[0], EscapeHtml(s[1..]));
      assert [s[0]] + s[1..] == s;
    }
  }

  // ---------------------------------------------------------------------
  // normalizeHash and route: from `location.hash` to the name of a view.
  // ---------------------------------------------------------------------

  const DefaultView := "planificacion"

  /** The hash `normalizeHash` leaves in `location.hash`: `#x` becomes `#/x`, anything else stays. */
  function NormalizedHash(h: string): string {
    if h == [] then h
    else if StartsWith(h, "#/") then h
    else if StartsWith(h, "#") && |h| > 1 then "#/" + h[1..]
    else h
  }

  /** The view `route()` returns when `location.hash` is `h`: never empty. */
  function ViewOf(h: string): (view: string)
    ensures view != []
  {
    var fixed := NormalizedHash(h);
    var raw := if fixed == [] then "#/" + DefaultView else fixed;
    var clean := if StartsWith(raw, "#/") then raw[2..] else ReplaceFirst(ReplaceFirst(raw, "#/", ""), "#", "");
    if clean == [] then DefaultView else clean
  }

  /** A hash is rewritten exactly when it is `#x` with `x` non-empty and not starting with `/`; then it gets the `/`. */
  lemma NormalizedHashRewrites(h: string)
    ensures NormalizedHash(h) != h <==> |h| > 1 && h[0] == '#' && h[1] != '/'
    ensures NormalizedHash(h) != h ==> NormalizedHash(h) == "#/" + h[1..]
  {
  }

  /** `normalizeHash` is idempotent: a hash it has produced is left alone. */
  lemma NormalizedHashIdempotent(h: string)
    ensures NormalizedHash(NormalizedHash(h)) == NormalizedHash(h)
  {
    if |h| > 1 && h[0] == '#' && h[1] != '/' {
      assert StartsWith(NormalizedHash(h), "#/");
    }
  }

  /** No hash, `#` and `#/` all open the planning view. */
  lemma RouteDefaults()
    ensures ViewOf("") == DefaultView && ViewOf("#") == DefaultView && ViewOf("#/") == DefaultView
  {
    assert StartsWith("#/" + DefaultView, "#/");
    assert ReplaceFirst("#", "#/", "") == "#";
    assert StartsWith("#", "#");
    assert ReplaceFirst("#", "#", "") == "";
  }

  /** `#/x` opens the view `x`. */
  lemma RouteToKey(x: string)
    requires x != []
    ensures ViewOf("#/" + x) == x
  {
    assert StartsWith("#/" + x, "#/");
    assert ("#/" + x)[2..] == x;
  }

  /** `#x` (with `x` not starting with `/`) is rewritten to `#/x` and opens the view `x`. */
  lemma RouteShortHash(x: string)
    requires x != [] && x[0] != '/'
    ensures NormalizedHash("#" + x) == "#/" + x && ViewOf("#" + x) == x
  {
    var h := "#" + x;
    assert h[..2][1] == x[0];
    assert !StartsWith(h, "#/") && StartsWith(h, "#");
    assert h[1..] == x;
    RouteToKey(x);
  }

  /** `normalizeHash()`: rewrites `location.hash` to its normal form. */
  method NormalizeHash(loc: Location)
    modifies loc
    ensures loc.hash == NormalizedHash(old(loc.hash))
  {
    var h := loc.hash;
    if h == [] {
      return;
    }
    if StartsWith(h, "#/") {
      return;
    }
    if StartsWith(h, "#") && |h| > 1 {
      var fixed := "#/" + h[1..];
      if loc.hash != fixed {
        loc.hash := fixed;
      }
    }
  }

  /** `route()`: normalizes the hash, then reads the view name from it. */
  method Route(loc: Location) returns (view: string)
    modifies loc
    ensures loc.hash == NormalizedHash(old(loc.hash))
    ensures view == ViewOf(old(loc.hash))
  {
    NormalizeHash(loc);
    var raw := if loc.hash == [] then "#/" + DefaultView else loc.hash;
    var clean := if StartsWith(raw, "#/") then raw[2..] else ReplaceFirst(ReplaceFirst(raw, "#/", ""), "#", "");
    view := if clean == [] then DefaultView else clean;
  }

  // ---------------------------------------------------------------------
  // canSee / buildMenu: the pages the permissions allow, in a fixed order.
  // ---------------------------------------------------------------------

  /** A menu entry: the view it opens and its caption. */
  datatype Page = Page(key: string, caption: string)

  /** The eleven pages `buildMenu` considers, in menu order. */
  const Pages: seq<Page> := [
    Page("planificacion", "Planificaci\U{F3}n"),
    Page("equipos", "Equipos"),
    Page("gruas", "Puentes gr\U{FA}a"),
    Page("auxiliares", "Auxiliares"),
    Page("incidencias", "Incidencias"),
    Page("inventario", "Inventario"),
    Page("solicitudes", "Nuevas solicitudes"),
    Page("repuestos", "Repuestos"),
    Page("externas", "Subcontratas"),
    Page("ot", "OT"),
    Page("kpi", "KPIs")
  ]

  /** `state.perms`: the permission record from the backend, with its optional list of page keys. */
  datatype Perms = Perms(pages: Option<seq<string>>)

  /** `canSee(page)`: `state.perms?.pages?.includes(page)`. */
  predicate CanSee(perms: Option<Perms>, key: string) {
    perms.Some? && perms.value.pages.Some? && key in perms.value.pages.value
  }

  /** The pages of `pages` that `perms` allows, in the order of `pages`. */
  function Visible(pages: seq<Page>, perms: Option<Perms>): seq<Page> {
    if pages == [] then []
    else (if CanSee(perms, pages[0].key) then [pages[0]] else []) + Visible(pages[1..], perms)
  }

  /** The menu `buildMenu` renders for `perms`. */
  function Menu(perms: Option<Perms>): seq<Page> {
    Visible(Pages, perms)
  }

  /** `xs` is `ys` with some elements left out. */
  predicate IsSubsequence<T(==)>(xs: seq<T>, ys: seq<T>)
    decreases |ys|
  {
    xs == [] || (ys != [] && if xs[0] == ys[0] then IsSubsequence(xs[1..], ys[1..]) else IsSubsequence(xs, ys[1..]))
  }

  /** A page is shown exactly when it is one of the given pages and the permissions allow it. */
  lemma {:induction false} VisibleMembers(pages: seq<Page>, perms: Option<Perms>)
    ensures forall p :: p in Visible(pages, perms) <==> p in pages && CanSee(perms, p.key)
  {
    if pages != [] {
      VisibleMembers(pages[1..], perms);
      assert forall p :: p in pages <==> p == pages[0] || p in pages[1..];
    }
  }

  /** The shown pages keep the order of the given pages. */
  lemma {:induction false} VisibleInOrder(pages: seq<Page>, perms: Option<Perms>)
    ensures IsSubsequence(Visible(pages, perms), pages)
  {
    if pages != [] {
      VisibleInOrder(pages[1..], perms);
      var rest := Visible(pages[1..], perms);
      if CanSee(perms, pages[0].key) {
        assert ([pages[0]] + rest)[1..] == rest;
      } else if rest != [] {
        VisibleMembers(pages[1..], perms);
        assert rest[0] in rest;
        assert CanSee(perms, rest[0].key);
        assert rest[0] != pages[0];
        assert Visible(pages, perms) == rest;
        assert IsSubsequence(rest, pages[1..]);
      }
    }
  }

  /** Permissions that allow the same keys give the same pages, whatever the order of `perms.pages`. */
  lemma {:induction false} VisibleDependsOnAllowedKeys(pages: seq<Page>, a: Option<Perms>, b: Option<Perms>)
    requires forall k :: CanSee(a, k) <==> CanSee(b, k)
    ensures Visible(pages, a) == Visible(pages, b)
  {
    if pages != [] {
      VisibleDependsOnAllowedKeys(pages[1..], a, b);
    }
  }

  /** Without permissions, or without a page list, nothing is shown. */
  lemma {:induction false} VisibleWithoutPerms(pages: seq<Page>, perms: Option<Perms>)
    requires perms.None? || perms.value.pages.None?
    ensures Visible(pages, perms) == []
  {
    if pages != [] {
      VisibleWithoutPerms(pages[1..], perms);
    }
  }

  /**
    * The menu: exactly the permitted pages among the eleven, in the fixed
    * order whatever the order of the permission list, and empty with no
    * permissions.
    */
  lemma MenuProperties(perms: Option<Perms>, allowed: seq<string>, reordered: seq<string>)
    requires forall k :: k in allowed <==> k in reordered
    ensures forall p :: p in Menu(perms) <==> p in Pages && CanSee(perms, p.key)
    ensures IsSubsequence(Menu(perms), Pages)
    ensures Menu(Some(Perms(Some(allowed)))) == Menu(Some(Perms(Some(reordered))))
    ensures Menu(None) == [] && Menu(Some(Perms(None))) == []
  {
    VisibleMembers(Pages, perms);
    VisibleInOrder(Pages, perms);
    VisibleDependsOnAllowedKeys(Pages, Some(Perms(Some(allowed))), Some(Perms(Some(reordered))));
    VisibleWithoutPerms(Pages, None);
    VisibleWithoutPerms(Pages, Some(Perms(None)));
  }

  /** Every menu link `#/key` routes to the view `key`. */
  lemma MenuLinksRoute(perms: Option<Perms>)
    ensures forall p :: p in Menu(perms) ==> ViewOf("#/" + p.key) == p.key
  {
    VisibleMembers(Pages, perms);
    forall p | p in Menu(perms) ensures ViewOf("#/" + p.key) == p.key {
      RouteToKey(p.key);
    }
  }

  /** The pages from `i` on: page `i` when it is allowed, then the allowed ones after it. */
  lemma VisibleFrom(pages: seq<Page>, perms: Option<Perms>, i: nat)
    requires i < |pages|
    ensures Visible(pages[i..], perms)
            == (if CanSee(perms, pages[i].key) then [pages[i]] else []) + Visible(pages[i + 1..], perms)
  {
    assert pages[i..][1..] == pages[i + 1..];
  }

  /** Goes through `pages` in order and keeps the ones `perms` allows. */
  method CollectVisible(pages: seq<Page>, perms: Option<Perms>) returns (items: seq<Page>)
    ensures items == Visible(pages, perms)
  {
    items := [];
    for i := 0 to |pages|
      invariant items + Visible(pages[i..], perms) == Visible(pages, perms)
    {
      VisibleFrom(pages, perms, i);
      var rest := Visible(pages[i + 1..], perms);
      if CanSee(perms, pages[i].key) {
        assert items + ([pages[i]] + rest) == (items + [pages[i]]) + rest;
        items := items + [pages[i]];
      } else {
        assert items + ([] + rest) == items + rest;
      }
    }
    assert pages[|pages|..] == [];
  }

  /**
    * `buildMenu()`: the eleven `if (canSee(k)) items.push(...)` statements,
    * taken in the order of `Pages`. The rendering into the DOM is not modelled.
    */
  method BuildMenu(perms: Option<Perms>) returns (items: seq<Page>)
    ensures items == Menu(perms)
  {
    items := CollectVisible(Pages, perms);
  }

  // ---------------------------------------------------------------------
  // Login: extractToken and the loginCompat retry loop.
  // ---------------------------------------------------------------------

  /** Where `extractToken` looks, in order: `token`, `data.token`, `result.token`, `auth.token`. */
  function TokenCandidates(out: Json): (c: seq<Json>)
    ensures |c| == 4
  {
    [Get(out, "token"), Get(Get(out, "data"), "token"), Get(Get(out, "result"), "token"), Get(Get(out, "auth"), "token")]
  }

  /** `extractToken(out)`: the first truthy candidate, else `null`. */
  function ExtractToken(out: Json): (t: Json)
    ensures Truthy(t) ==> exists i :: 0 <= i < 4 && t == TokenCandidates(out)[i]
                                      && forall j :: 0 <= j < i ==> !Truthy(TokenCandidates(out)[j])
    ensures !Truthy(t) ==> t == Null && forall i :: 0 <= i < 4 ==> !Truthy(TokenCandidates(out)[i])
  {
    var c := TokenCandidates(out);
    Or(c[0], Or(c[1], Or(c[2], Or(c[3], Null))))
  }

  /** An exception value: only its message matters here. */
  datatype Error = Error(message: string)

  /** What `fetch` and `res.json()` give for one POST: the parsed body, or the error they threw. */
  datatype Reply = Body(data: Json) | Failure(error: Error)

  /** What `apiPost` gives: the body, or an exception. */
  datatype PostOutcome = Returned(data: Json) | Threw(error: Error)

  /** `apiPost`'s check: a body with `ok === false` is thrown as `new Error(data.error)`. */
  function ApiPost(reply: Reply): (o: PostOutcome)
    ensures o.Returned? <==> reply.Body? && Get(reply.data, "ok") != Bool(false)
    ensures o.Returned? ==> o.data == reply.data
    ensures reply.Failure? ==> o == Threw(reply.error)
    ensures reply.Body? && Get(reply.data, "ok") == Bool(false) ==>
      o.Threw? && o.error.message == if Get(reply.data, "error").Undefined? then "" else ToJsString(Get(reply.data, "error"))
  {
    match reply
    case Failure(e) => Threw(e)
    case Body(data) =>
      if Get(data, "ok") == Bool(false) then
        var e := Get(data, "error");
        Threw(Error(if e.Undefined? then "" else ToJsString(e)))
      else Returned(data)
  }

  /** One login payload: which key names the action, which keys carry the user and the password. */
  datatype Payload = Payload(actionKey: string, userKey: string, passKey: string, user: string, pass: string)

  /** The five payload shapes `loginCompat` tries, in order. */
  function Attempts(user: string, pass: string): (a: seq<Payload>)
    ensures |a| == 5
  {
    [ Payload("path", "user", "pass", user, pass),
      Payload("action", "user", "pass", user, pass),
      Payload("op", "user", "pass", user, pass),
      Payload("path", "username", "password", user, pass),
      Payload("action", "username", "password", user, pass) ]
  }

  const NoTokenError := Error("Login sin token")
  const LoginFailedError := Error("No se pudo iniciar sesi\U{F3}n")

  /** The backend rejected the payload's shape: the lower-cased message names bad POST parameters. */
  predicate IsShapeError(e: Error) {
    var m := ToLower(e.message);
    || Includes(m, "par\U{E1}metros post") || Includes(m, "parametros post")
    || Includes(m, "no v\U{E1}lido") || Includes(m, "no valido")
  }

  /** What one attempt decides: accept a token, go on to the next shape, or stop with an error. */
  datatype Verdict = Accept(token: Json) | Retry(error: Error) | Stop(error: Error)

  function VerdictOf(o: PostOutcome): (v: Verdict)
    ensures v.Accept? ==> Truthy(v.token)
    ensures v.Accept? <==> o.Returned? && Truthy(ExtractToken(o.data))
    ensures v.Accept? ==> v.token == ExtractToken(o.data)
    ensures o.Returned? && !Truthy(ExtractToken(o.data)) ==> v == Retry(NoTokenError)
    ensures o.Threw? ==> !v.Accept? && v.error == o.error
    ensures o.Threw? ==> (v.Stop? <==> !IsShapeError(o.error))
  {
    match o
    case Returned(out) =>
      var token := ExtractToken(out);
      if Truthy(token) then Accept(token) else Retry(NoTokenError)
    case Threw(e) => if IsShapeError(e) then Retry(e) else Stop(e)
  }

  datatype LoginResult = LoggedIn(token: Json) | LoginFailed(error: Error)

  /**
    * The loop of `loginCompat` over the payloads `attempts`, where
    * `replies[i]` is what the backend does with the i-th POST.
    */
  method TryPayloads(attempts: seq<Payload>, replies: seq<Reply>) returns (result: LoginResult, sent: seq<Payload>)
    requires 0 < |attempts| <= |replies|
    ensures 1 <= |sent| <= |attempts| && sent == attempts[..|sent|]
    ensures forall i :: 0 <= i < |sent| - 1 ==> VerdictOf(ApiPost(replies[i])).Retry?
    ensures match VerdictOf(ApiPost(replies[|sent| - 1]))
            case Accept(t) => result == LoggedIn(t)
            case Stop(e) => result == LoginFailed(e)
            case Retry(e) => |sent| == |attempts| && result == LoginFailed(e)
  {
    var lastErr: Option<Error> := None;
    sent := [];
    for k := 0 to |attempts|
      invariant sent == attempts[..k]
      invariant forall i :: 0 <= i < k ==> VerdictOf(ApiPost(replies[i])).Retry?
      invariant k > 0 ==> lastErr == Some(VerdictOf(ApiPost(replies[k - 1])).error)
    {
      sent := sent + [attempts[k]];
      assert attempts[..k + 1] == attempts[..k] + [attempts[k]];
      match ApiPost(replies[k]) {
        case Returned(out) =>
          var token := ExtractToken(out);
          if Truthy(token) {
            return LoggedIn(token), sent;
          }
          lastErr := Some(NoTokenError);
        case Threw(err) =>
          lastErr := Some(err);
          if !IsShapeError(err) {
            return LoginFailed(err), sent;
          }
      }
    }
    result := LoginFailed(lastErr.GetOr(LoginFailedError));
  }

  /**
    * `loginCompat(user, pass)`. The payloads go out in order and at most
    * five; the first truthy token is returned; an error that is not about
    * the payload shape ends the loop at once; after five rejected shapes the
    * last error is thrown.
    */
  method LoginCompat(user: string, pass: string, replies: seq<Reply>) returns (result: LoginResult, sent: seq<Payload>)
    requires |replies| >= |Attempts(user, pass)|
    ensures 1 <= |sent| <= |Attempts(user, pass)| && sent == Attempts(user, pass)[..|sent|]
    ensures forall i :: 0 <= i < |sent| - 1 ==> VerdictOf(ApiPost(replies[i])).Retry?
    ensures match VerdictOf(ApiPost(replies[|sent| - 1]))
            case Accept(t) => result == LoggedIn(t)
            case Stop(e) => result == LoginFailed(e)
            case Retry(e) => |sent| == |Attempts(user, pass)| && result == LoginFailed(e)
    ensures result.LoggedIn? ==> Truthy(result.token)
  {
    result, sent := TryPayloads(Attempts(user, pass), replies);
  }

  // ---------------------------------------------------------------------
  // Session state, header badge, logout.
  // ---------------------------------------------------------------------

  const TokenKey := "CDL_TOKEN"

  /** The empty semaphore cache `state.cache` starts with. */
  const InitialCache: Json :=
    Obj(map["semaforos" := Obj(map["equipos" := Obj(map[]), "gruas" := Obj(map[]), "auxiliares" := Obj(map[])])])

  /** The global `state` record. */
  class AppState {
    var token: Json
    var me: Json
    var perms: Option<Perms>
    var bootstrap: Json
    var cache: Json

    constructor ()
      ensures token == Null && me == Null && perms == None && bootstrap == Null && cache == InitialCache
    {
      token, me, perms, bootstrap := Null, Null, None, Null;
      cache := InitialCache;
    }

    /** The first four assignments of `logout()`: everything but the cache is forgotten. */
    method ClearSession()
      modifies this
      ensures token == Null && me == Null && perms == None && bootstrap == Null
      ensures cache == old(cache)
    {
      token := Null;
      me := Null;
      perms := None;
      bootstrap := Null;
    }
  }

  /** The text `setBadgeRole(role)` shows: the trimmed role, or `'—'` when that is empty. */
  function BadgeText(role: Json): (text: string)
    ensures text != [] && IsTrimmed(text)
  {
    var r := Trim(ToJsString(Or(role, Str(""))));
    if r != [] then r
    else
      var dash := "\U{2014}";
      assert |dash| == 1 && !IsJsSpace(dash[0]);
      dash
  }

  /** A missing or empty role shows `—`; a string role with something besides white space shows trimmed. */
  lemma BadgeTextCases(role: Json)
    ensures !Truthy(role) ==> BadgeText(role) == "\U{2014}"
    ensures role.Str? && Trim(role.s) != [] ==> BadgeText(role) == Trim(role.s)
  {
    if !Truthy(role) {
      assert Or(role, Str("")) == Str("");
      assert |Trim(ToJsString(Str("")))| <= 0;
    }
    if role.Str? && Trim(role.s) != [] {
      assert role.s != [];
      assert Or(role, Str("")) == role;
    }
  }

  /** The user name `paintHeader` shows: the first truthy of `name`, `user`, `email`, else `'Usuario'`. */
  function HeaderUser(me: Json): (name: string)
    ensures !Truthy(Get(me, "name")) && !Truthy(Get(me, "user")) && !Truthy(Get(me, "email")) ==> name == "Usuario"
    ensures Truthy(Get(me, "name")) && Get(me, "name").Str? ==> name == Get(me, "name").s
    ensures !Truthy(Get(me, "name")) && Truthy(Get(me, "user")) && Get(me, "user").Str? ==> name == Get(me, "user").s
    ensures Truthy(Get(me, "name")) ==> name == ToJsString(Get(me, "name"))
    ensures !Truthy(Get(me, "name")) && Truthy(Get(me, "user")) ==> name == ToJsString(Get(me, "user"))
    ensures !Truthy(Get(me, "name")) && !Truthy(Get(me, "user")) && Truthy(Get(me, "email")) ==> name == ToJsString(Get(me, "email"))
  {
    var n := Or(Get(me, "name"), Or(Get(me, "user"), Or(Get(me, "email"), Str(""))));
    if Truthy(n) then ToJsString(n) else "Usuario"
  }

  /** `paintHeader()`: the user name and the role badge drawn for the signed-in user `me`. */
  method PaintHeader(me: Json) returns (user: string, badge: string)
    ensures user == HeaderUser(me) && badge == BadgeText(Or(Get(me, "role"), Str("")))
  {
    user := HeaderUser(me);
    badge := BadgeText(Or(Get(me, "role"), Str("")));
  }

  /**
    * `logout()`: forgets the token, the user, the permissions and the
    * bootstrap data but keeps the cache; removes the stored token; the menu
    * and the badge are redrawn empty; the hash goes to the planning view.
    */
  method Logout(st: AppState, storage: LocalStorage, loc: Location) returns (menu: seq<Page>, user: string, badge: string)
    modifies st, storage, loc
    ensures st.token == Null && st.me == Null && st.perms == None && st.bootstrap == Null
    ensures st.cache == old(st.cache)
    ensures storage.items == old(storage.items) - {TokenKey}
    ensures loc.hash == "#/" + DefaultView
    ensures menu == [] && user == HeaderUser(Null) && badge == BadgeText(Str(""))
  {
    st.ClearSession();
    storage.RemoveItem(TokenKey);
    menu := BuildMenu(st.perms);
    VisibleWithoutPerms(Pages, st.perms);
    user, badge := PaintHeader(st.me);
    loc.hash := "#/" + DefaultView;
  }

  /** After `logout()` the header reads `Usuario` with the badge `—`. */
  lemma LoggedOutHeader()
    ensures HeaderUser(Null) == "Usuario" && BadgeText(Str("")) == "\U{2014}"
  {
    BadgeTextCases(Str(""));
  }

  // ---------------------------------------------------------------------
  // apiGet: the query parameters of a GET call.
  // ---------------------------------------------------------------------

  /** `v !== undefined && v !== null && String(v) !== ''`: the parameter goes into the URL. */
  predicate IsSent(v: Json) {
    !v.Undefined? && !v.Null? && ToJsString(v) != []
  }

  /**
    * The query `apiGet(path, params)` sends: `path`, the token when there is
    * one, then every parameter that is sent (a parameter named `path` or
    * `token` overrides those). Skipped parameters leave no trace.
    */
  function Query(path: string, token: Json, params: map<string, Json>): (q: map<string, string>)
    ensures forall k :: k in params && IsSent(params[k]) ==> k in q && q[k] == ToJsString(params[k])
    ensures forall k :: k in q ==> k == "path" || k == "token" || (k in params && IsSent(params[k]))
    ensures "path" in q && ("path" !in params || !IsSent(params["path"]) ==> q["path"] == path)
    ensures "token" in q <==> Truthy(token) || ("token" in params && IsSent(params["token"]))
    ensures Truthy(token) && !("token" in params && IsSent(params["token"])) ==> q["token"] == ToJsString(token)
  {
    var base := map["path" := path];
    var withToken := if Truthy(token) then base["token" := ToJsString(token)] else base;
    withToken + map k | k in params && IsSent(params[k]) :: ToJsString(params[k])
  }
}
