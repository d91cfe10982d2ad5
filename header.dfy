/**
 * The shared page header (includes/header.php): the login gate pages opt
 * into, and the active-users panel, whose entries are escaped for HTML and
 * labelled by how long the user has been idle.
 */
module Header {
  import opened Wrappers
  import opened Text
  import opened Config
  import opened Session

  /** The replacement `escapeHtml` makes for one character. */
  function EscapeChar(c: char): (r: string)
    ensures r != []
    ensures c != '&' && c != '<' && c != '>' && c != '"' && c != '\'' ==> r == [c]
  {
    match c
    case '&' => "&amp;"
    case '<' => "&lt;"
    case '>' => "&gt;"
    case '"' => "&quot;"
    case '\'' => "&#039;"
    case _ => [c]
  }

  /** No character that can open a tag or close an attribute value. */
  predicate NoMarkup(s: string) {
    forall k :: 0 <= k < |s| ==> s[k] != '<' && s[k] != '>' && s[k] != '"' && s[k] != '\''
  }

  /** `escapeHtml`: each of & < > " ' replaced by its entity. */
  function EscapeHtml(s: string): (r: string)
    ensures |r| >= |s|
    ensures NoMarkup(r)
    ensures (forall k :: 0 <= k < |s| ==> EscapeChar(s[k]) == [s[k]]) ==> r == s
  {
    if s == [] then []
    else
      var head, tail := EscapeChar(s[0]), EscapeHtml(s[1..]);
      assert forall k :: 0 <= k < |head| ==> head[k] != '<' && head[k] != '>' && head[k] != '"' && head[k] != '\'';
      assert s == [s[0]] + s[1..];
      head + tail
  }

  /** Decodes the five entities `escapeHtml` produces; any other text is kept. */
  function Unescape(s: string): string
    decreases |s|
  {
    if s == [] then []
    else if StartsWith(s, "&amp;") then "&" + Unescape(s[5..])
    else if StartsWith(s, "&lt;") then "<" + Unescape(s[4..])
    else if StartsWith(s, "&gt;") then ">" + Unescape(s[4..])
    else if StartsWith(s, "&quot;") then "\"" + Unescape(s[6..])
    else if StartsWith(s, "&#039;") then "'" + Unescape(s[6..])
    else [s[0]] + Unescape(s[1..])
  }

  /** Decoding an escaped character gives it back, whatever follows. */
  lemma UnescapeChar(c: char, t: string)
    ensures Unescape(EscapeChar(c) + t) == [c] + Unescape(t)
  {
    var e := EscapeChar(c);
    var s := e + t;
    assert s[..|e|] == e && s[|e|..] == t;
    if c == '&' {
      assert StartsWith(s, "&amp;");
      assert Unescape(s) == "&" + Unescape(t);
    } else if c == '<' {
      assert s[1] == 'l';
      assert !StartsWith(s, "&amp;") by { assert "&amp;"[1] == 'a'; }
      assert StartsWith(s, "&lt;");
      assert Unescape(s) == "<" + Unescape(t);
    } else if c == '>' {
      assert s[1] == 'g';
      assert !StartsWith(s, "&amp;") by { assert "&amp;"[1] == 'a'; }
      assert !StartsWith(s, "&lt;") by { assert "&lt;"[1] == 'l'; }
      assert StartsWith(s, "&gt;");
      assert Unescape(s) == ">" + Unescape(t);
    } else if c == '"' {
      assert s[1] == 'q';
      assert !StartsWith(s, "&amp;") by { assert "&amp;"[1] == 'a'; }
      assert !StartsWith(s, "&lt;") by { assert "&lt;"[1] == 'l'; }
      assert !StartsWith(s, "&gt;") by { assert "&gt;"[1] == 'g'; }
      assert StartsWith(s, "&quot;");
      assert Unescape(s) == "\"" + Unescape(t);
    } else if c == '\'' {
      assert s[1] == '#';
      assert !StartsWith(s, "&amp;") by { assert "&amp;"[1] == 'a'; }
      assert !StartsWith(s, "&lt;") by { assert "&lt;"[1] == 'l'; }
      assert !StartsWith(s, "&gt;") by { assert "&gt;"[1] == 'g'; }
      assert !StartsWith(s, "&quot;") by { assert "&quot;"[1] == 'q'; }
      assert StartsWith(s, "&#039;");
      assert Unescape(s) == "'" + Unescape(t);
    } else {
      assert s[0] == c && c != '&';
      NotEntity(s);
      assert s[1..] == t;
    }
  }

  /** Text not starting with '&' starts no entity. */
  lemma NotEntity(s: string)
    requires s != [] && s[0] != '&'
    ensures Unescape(s) == [s[0]] + Unescape(s[1..])
  {
    assert !StartsWith(s, "&amp;") by { assert "&amp;"[0] == '&'; }
    assert !StartsWith(s, "&lt;") by { assert "&lt;"[0] == '&'; }
    assert !StartsWith(s, "&gt;") by { assert "&gt;"[0] == '&'; }
    assert !StartsWith(s, "&quot;") by { assert "&quot;"[0] == '&'; }
    assert !StartsWith(s, "&#039;") by { assert "&#039;"[0] == '&'; }
  }

  /** Escaping loses nothing: decoding the result gives the text back. */
  lemma {:induction false} EscapeRoundTrip(s: string)
    ensures Unescape(EscapeHtml(s)) == s
    decreases |s|
  {
    if s != [] {
      EscapeRoundTrip(s[1..]);
      UnescapeChar(s[0], EscapeHtml(s[1..]));
      assert s == [s[0]] + s[1..];
    }
  }

  /** JavaScript's decimal rendering of a natural number. */
  function NatText(n: nat): (r: string)
    ensures r != []
    ensures forall k :: 0 <= k < |r| ==> '0' <= r[k] <= '9'
  {
    var digit := ['0' + (n % 10) as char];
    if n < 10 then digit else NatText(n / 10) + digit
  }

  /** JavaScript's decimal rendering of an integer. */
  function IntText(n: int): (r: string)
    ensures r != [] && r[0] != 'J'
  {
    if n >= 0 then NatText(n) else "-" + NatText(-n)
  }

  /** `Math.floor(idle_seconds / 60)`. */
  function IdleMinutes(idleSeconds: int): (m: int)
    ensures m * 60 <= idleSeconds < m * 60 + 60
  {
    idleSeconds / 60
  }

  /** The activity label: "Just now" in the first minute, otherwise whole minutes ago. */
  function IdleText(idleSeconds: int): (r: string)
    ensures r == "Just now" <==> 0 <= idleSeconds < 60
    ensures IdleMinutes(idleSeconds) != 0 ==> r == IntText(IdleMinutes(idleSeconds)) + "m ago"
  {
    var m := IdleMinutes(idleSeconds);
    if m == 0 then "Just now"
    else
      var r := IntText(m) + "m ago";
      assert r[0] != "Just now"[0];
      r
  }

  /** The marker class: active under a minute of idleness, idle otherwise. */
  function StatusClass(idleSeconds: int): (r: string)
    ensures r == "status-active" || r == "status-idle"
    ensures r == "status-active" <==> idleSeconds < 60
  {
    if idleSeconds < 60 then "status-active" else "status-idle"
  }

  /** For a non-negative idle time, a user is marked active exactly when the label says "Just now". */
  lemma ActiveMeansJustNow(idleSeconds: int)
    requires idleSeconds >= 0
    ensures StatusClass(idleSeconds) == "status-active" <==> IdleText(idleSeconds) == "Just now"
  {
  }

  /** A user as the active-users endpoint reports them. */
  datatype ActiveUserJson = ActiveUserJson(nim: string, name: string, idleSeconds: int)

  /** One entry of the panel: its class, the escaped name and nim, and the activity label. */
  datatype UserItem = UserItem(statusClass: string, name: string, nim: string, idleText: string)

  /** The panel: a notice when nobody is online, otherwise one entry per user. */
  datatype ActiveUsersView = NoOtherUsers | UserList(items: seq<UserItem>)

  /** An entry shows the user's name and nim escaped: free of markup, and decoding to the originals. */
  function ItemFor(user: ActiveUserJson): (r: UserItem)
    ensures NoMarkup(r.name) && NoMarkup(r.nim)
    ensures Unescape(r.name) == user.name && Unescape(r.nim) == user.nim
    ensures r.statusClass == StatusClass(user.idleSeconds) && r.idleText == IdleText(user.idleSeconds)
  {
    EscapeRoundTrip(user.name);
    EscapeRoundTrip(user.nim);
    UserItem(StatusClass(user.idleSeconds), EscapeHtml(user.name), EscapeHtml(user.nim), IdleText(user.idleSeconds))
  }

  /**
   * `updateActiveUsersList`: "No other users online" for an empty list,
   * otherwise one entry per user in the order given, none carrying markup
   * from the user's name or nim.
   */
  method RenderActiveUsers(users: seq<ActiveUserJson>) returns (view: ActiveUsersView)
    ensures view == NoOtherUsers <==> users == []
    ensures view.UserList? ==> |view.items| == |users| && forall i :: 0 <= i < |users| ==> view.items[i] == ItemFor(users[i])
  {
    if |users| == 0 {
      return NoOtherUsers;
    }
    var items: seq<UserItem> := [];
    for k := 0 to |users|
      invariant |items| == k && forall i :: 0 <= i < k ==> items[i] == ItemFor(users[i])
    {
      items := items + [ItemFor(users[k])];
    }
    view := UserList(items);
  }

  /** What the header does before rendering. */
  datatype HeaderOutcome = RedirectToLogin(url: string) | RenderPage(currentUser: Option<CurrentUser>)

  /**
   * The gate: a page that requires login sends a logged-out visitor to the
   * login page with the requested address (URL-encoded by `urlencode`);
   * otherwise the page is rendered for the current user.
   */
  function HeaderGate(requireLogin: bool, session: PhpSession, requestUri: string, urlencode: string -> string): (r: HeaderOutcome)
    reads session
    ensures r.RedirectToLogin? <==> requireLogin && !session.IsLoggedIn()
    ensures r.RedirectToLogin? ==> r.url == RootUrl + "/login.php?redirect=" + urlencode(requestUri)
    ensures r.RenderPage? ==> r.currentUser == session.GetCurrentUser()
    ensures r.RenderPage? && requireLogin ==> r.currentUser.Some?
  {
    if requireLogin && !session.IsLoggedIn() then RedirectToLogin(RootUrl + "/login.php?redirect=" + urlencode(requestUri))
    else RenderPage(session.GetCurrentUser())
  }
}
