/** app/utils/ldap.py: search-then-bind authentication against a directory.
    The directory and the ldap3 connection objects are replaced by an oracle
    that says what each network step returns or raises; what remains is the
    adapter's own decision logic: early exits, the choice of search bind, the
    search filter, attribute fallbacks and the mapping of raised exceptions. */
module Ldap {
  import opened Wrappers
  import opened Text

  /** The `LDAP_*` settings the adapter reads. Unset optional strings are `""`
      (the code treats `None` and `""` alike). */
  datatype DirectoryConfig = DirectoryConfig(
    enabled: bool,
    server: string,
    port: int,
    useSsl: bool,
    timeout: int,
    bindDn: string,
    bindPassword: string,
    baseDn: string,
    userFilter: string,
    attrEmail: string,
    attrFullName: string)

  /** The class of an exception raised by ldap3 or by the TLS setup:
      `LDAPBindError`, any other `LDAPException`, or anything else. */
  datatype Fault = BindFault | ProtocolFault | ForeignFault

  /** What a network step returns, or the exception it raises. */
  datatype Step<T> = Done(value: T) | Fails(fault: Fault)

  /** The identity the search connection binds with. */
  datatype BindAs = ServiceAccount(dn: string, password: string) | Anonymous

  /** A search hit: its distinguished name and its non-empty attribute values. */
  datatype Entry = Entry(dn: string, attributes: map<string, string>)

  /** The directory as the adapter sees it. */
  datatype Directory = Directory(
    tls: Option<Fault>,                         // raised while building the TLS settings
    server: Option<Fault>,                      // raised by the `Server` constructor
    open: BindAs -> Option<Fault>,              // raised by an auto-bound `Connection`
    search: (string, string) -> Step<seq<Entry>>, // entries for (base DN, filter)
    bind: (string, string) -> Step<bool>,       // `bind()` as (DN, password)
    probe: Step<bool>)                          // anonymous `bind()` of the connection test

  /** A configured server endpoint. */
  datatype Server = Server(host: string, port: int, useSsl: bool, timeout: int)

  /** What escapes the body of `authenticate_ldap_user`'s `try`: a library
      fault, the adapter's own `LDAPConnectionError` (raised by
      `create_ldap_server`), or the error `str.format` raises on a bad filter. */
  datatype Thrown = LibraryFault(fault: Fault) | AdapterConnectionError(message: string) | FilterFormatError

  /** The two exceptions the adapter raises to its caller. */
  datatype LdapError = LdapAuthenticationError | LdapConnectionError

  /** The user information returned on success. */
  datatype UserInfo = UserInfo(email: string, fullName: string, username: string)

  /** The result of `authenticate_ldap_user`: the user's information, `None`,
      or a raised `LdapError`. */
  datatype LdapOutcome = Authenticated(info: UserInfo) | NotAuthenticated | Raised(error: LdapError)

  // ---------------------------------------------------------------------------

  /** `create_ldap_server`: a missing server setting is an `LDAPConnectionError`;
      a failure building the TLS settings (only attempted with SSL on)
      propagates as it is; a failure of the `Server` constructor is wrapped in
      an `LDAPConnectionError` whose message starts with a fixed prefix (the
      library's own text that follows it is not modelled). */
  function CreateLdapServer(cfg: DirectoryConfig, dir: Directory): (r: Result<Server, Thrown>)
    ensures cfg.server == "" ==> r == Failure(AdapterConnectionError("LDAP_SERVER is not configured"))
    ensures cfg.server != "" && cfg.useSsl && dir.tls.Some? ==> r == Failure(LibraryFault(dir.tls.value))
    ensures cfg.server != "" && !(cfg.useSsl && dir.tls.Some?) && dir.server.Some? ==>
              r.Failure? && r.error.AdapterConnectionError?
              && StartsWith(r.error.message, "Failed to create LDAP server")
    ensures r.Success? <==> cfg.server != "" && (cfg.useSsl ==> dir.tls.None?) && dir.server.None?
    ensures r.Success? ==> r.value == Server(cfg.server, cfg.port, cfg.useSsl, cfg.timeout)
  {
    if cfg.server == "" then Failure(AdapterConnectionError("LDAP_SERVER is not configured"))
    else if cfg.useSsl && dir.tls.Some? then Failure(LibraryFault(dir.tls.value))
    else if dir.server.Some? then Failure(AdapterConnectionError("Failed to create LDAP server: "))
    else Success(Server(cfg.server, cfg.port, cfg.useSsl, cfg.timeout))
  }

  /** The search connection binds as the service account only when both the
      bind DN and its password are set, and anonymously otherwise. */
  function SearchBind(cfg: DirectoryConfig): (b: BindAs)
    ensures b.ServiceAccount? <==> cfg.bindDn != "" && cfg.bindPassword != ""
    ensures b.ServiceAccount? ==> b.dn == cfg.bindDn && b.password == cfg.bindPassword
  {
    if cfg.bindDn != "" && cfg.bindPassword != "" then ServiceAccount(cfg.bindDn, cfg.bindPassword) else Anonymous
  }

  // ---------------------------------------------------------------------------
  // The search filter: `LDAP_USER_FILTER.format(username=username)`

  /** `template.format(username=username)`: `{{` and `}}` stand for single
      braces, `{username}` for the username; any other brace is an error. */
  function FormatFilter(template: string, username: string): (r: Option<string>)
    decreases |template|
  {
    if template == [] then Some([])
    else if template[0] == '{' then
      if |template| >= 2 && template[1] == '{' then PrependTo("{", FormatFilter(template[2..], username))
      else if StartsWith(template, "{username}") then PrependTo(username, FormatFilter(template[10..], username))
      else None
    else if template[0] == '}' then
      if |template| >= 2 && template[1] == '}' then PrependTo("}", FormatFilter(template[2..], username))
      else None
    else PrependTo([template[0]], FormatFilter(template[1..], username))
  }

  function PrependTo(prefix: string, rest: Option<string>): Option<string> {
    match rest
    case None => None
    case Some(s) => Some(prefix + s)
  }

  /** A filter template seen as literal text and username placeholders. */
  datatype Segment = Literal(text: string) | Placeholder

  /** Literal text written into a template, braces doubled. */
  function Escape(text: string): (r: string)
    ensures |r| >= |text|
    decreases |text|
  {
    if text == [] then [] else EscapeChar(text[0]) + Escape(text[1..])
  }

  /** The template text of one segment. */
  function SegmentTemplate(segment: Segment): string {
    match segment
    case Literal(t) => Escape(t)
    case Placeholder => "{username}"
  }

  /** What one segment stands for once the username is filled in. */
  function SegmentRender(segment: Segment, username: string): string {
    match segment
    case Literal(t) => t
    case Placeholder => username
  }

  /** The template text for a list of segments. */
  function TemplateOf(segments: seq<Segment>): string
    decreases |segments|
  {
    if segments == [] then [] else SegmentTemplate(segments[0]) + TemplateOf(segments[1..])
  }

  /** The intended filter: the segments with the placeholder replaced by the username. */
  function Render(segments: seq<Segment>, username: string): string
    decreases |segments|
  {
    if segments == [] then [] else SegmentRender(segments[0], username) + Render(segments[1..], username)
  }

  lemma {:induction false} FormatEscaped(text: string, rest: string, username: string)
    ensures FormatFilter(Escape(text) + rest, username) == PrependTo(text, FormatFilter(rest, username))
    decreases |text|
  {
    if text == [] {
      assert Escape(text) + rest == rest;
      PrependNothing(FormatFilter(rest, username));
    } else {
      var c := text[0];
      var tail := Escape(text[1..]) + rest;
      FormatEscaped(text[1..], rest, username);
      assert Escape(text) + rest == EscapeChar(c) + tail;
      FormatEscapedChar(c, tail, username);
      PrependTwice([c], text[1..], FormatFilter(rest, username));
      assert [c] + text[1..] == text;
    }
  }

  function EscapeChar(c: char): string {
    if c == '{' || c == '}' then [c, c] else [c]
  }

  lemma FormatEscapedChar(c: char, tail: string, username: string)
    ensures FormatFilter(EscapeChar(c) + tail, username) == PrependTo([c], FormatFilter(tail, username))
  {
    var e := EscapeChar(c) + tail;
    if c == '{' || c == '}' {
      assert e[0] == c && e[1] == c && e[2..] == tail;
    } else {
      assert e[0] == c && e[1..] == tail;
    }
  }

  lemma PrependNothing(x: Option<string>)
    ensures PrependTo([], x) == x
  {
    match x
    case None =>
    case Some(s) => assert [] + s == s;
  }

  lemma PrependTwice(a: string, b: string, x: Option<string>)
    ensures PrependTo(a, PrependTo(b, x)) == PrependTo(a + b, x)
  {
    match x
    case None =>
    case Some(s) => assert a + (b + s) == (a + b) + s;
  }

  /** Formatting a template built from segments substitutes the username for
      every placeholder and reproduces the literal text, so the search filter
      is exactly the configured template with the username filled in. */
  lemma FormatRendersTemplate(segments: seq<Segment>, username: string)
    ensures FormatFilter(TemplateOf(segments), username) == Some(Render(segments, username))
  {
    FormatTemplatePrefix(segments, [], username);
    assert TemplateOf(segments) + [] == TemplateOf(segments);
    assert Render(segments, username) + [] == Render(segments, username);
  }

  /** A well-formed template prefix formats to its rendering, followed by
      whatever the rest of the template formats to. */
  lemma {:induction false} FormatTemplatePrefix(segments: seq<Segment>, rest: string, username: string)
    ensures FormatFilter(TemplateOf(segments) + rest, username)
         == PrependTo(Render(segments, username), FormatFilter(rest, username))
    decreases |segments|
  {
    if segments == [] {
      assert TemplateOf(segments) + rest == rest;
      PrependNothing(FormatFilter(rest, username));
    } else {
      var tail := TemplateOf(segments[1..]) + rest;
      assert TemplateOf(segments) + rest == SegmentTemplate(segments[0]) + tail;
      FormatTemplatePrefix(segments[1..], rest, username);
      FormatSegment(segments[0], tail, username);
      PrependTwice(SegmentRender(segments[0], username), Render(segments[1..], username), FormatFilter(rest, username));
    }
  }

  lemma FormatSegment(segment: Segment, tail: string, username: string)
    ensures FormatFilter(SegmentTemplate(segment) + tail, username)
         == PrependTo(SegmentRender(segment, username), FormatFilter(tail, username))
  {
    match segment {
      case Literal(t) => FormatEscaped(t, tail, username);
      case Placeholder => FormatPlaceholder(tail, username);
    }
  }

  lemma FormatPlaceholder(tail: string, username: string)
    ensures FormatFilter("{username}" + tail, username) == PrependTo(username, FormatFilter(tail, username))
  {
    var e := "{username}" + tail;
    assert e[0] == '{' && e[1] == 'u';
    assert e[..10] == "{username}" && e[10..] == tail;
  }

  /** A template fails to format as soon as, after a well-formed prefix, it
      holds a `}` that is not doubled, or a `{` that is neither doubled nor the
      start of `{username}`. */
  lemma StrayBraceRejected(segments: seq<Segment>, rest: string, username: string)
    ensures !StartsWith(rest, "}") ==> FormatFilter(TemplateOf(segments) + "}" + rest, username) == None
    ensures !StartsWith(rest, "{") && !StartsWith(rest, "username}") ==>
              FormatFilter(TemplateOf(segments) + "{" + rest, username) == None
  {
    var prefix := TemplateOf(segments);
    assert prefix + "}" + rest == prefix + ("}" + rest);
    assert prefix + "{" + rest == prefix + ("{" + rest);
    FormatTemplatePrefix(segments, "}" + rest, username);
    FormatTemplatePrefix(segments, "{" + rest, username);
    StrayClose(rest, username);
    StrayOpen(rest, username);
  }

  lemma StrayClose(rest: string, username: string)
    ensures !StartsWith(rest, "}") ==> FormatFilter("}" + rest, username) == None
  {
    var b := "}" + rest;
    assert b[0] == '}';
    if !StartsWith(rest, "}") && |b| >= 2 {
      assert b[1] == rest[0];
      assert rest[..1] != "}";
    }
  }

  lemma StrayOpen(rest: string, username: string)
    ensures !StartsWith(rest, "{") && !StartsWith(rest, "username}") ==> FormatFilter("{" + rest, username) == None
  {
    var a := "{" + rest;
    assert a[0] == '{';
    if !StartsWith(rest, "{") && !StartsWith(rest, "username}") {
      if |a| >= 2 {
        assert a[1] == rest[0];
        assert rest[..1] != "{";
      }
      if |a| >= 10 {
        assert rest[..9] != "username}";
        assert a[..10][1..] == rest[..9];
        assert "{username}"[1..] == "username}";
      }
    }
  }

  // ---------------------------------------------------------------------------
  // Attribute fallback and the search

  /** The entry's value for `attribute`, if it has a non-empty one. */
  function Attribute(entry: Entry, attribute: string): Option<string> {
    if attribute in entry.attributes && entry.attributes[attribute] != "" then Some(entry.attributes[attribute]) else None
  }

  /** The user information read from a search hit, with fallbacks
      `username@unknown` for the email and the username for the full name. */
  function UserInfoOf(entry: Entry, cfg: DirectoryConfig, username: string): (info: UserInfo)
    ensures info.username == username
    ensures info.email == (match Attribute(entry, cfg.attrEmail) case Some(e) => e case None => username + "@unknown")
    ensures info.fullName == (match Attribute(entry, cfg.attrFullName) case Some(n) => n case None => username)
  {
    UserInfo(Attribute(entry, cfg.attrEmail).GetOr(username + "@unknown"),
             Attribute(entry, cfg.attrFullName).GetOr(username),
             username)
  }

  /** `_search_ldap_user`: open the search connection, search the base DN
      (`""` when unset) with the formatted filter and, on a hit, return the
      first entry's DN and user information; no hit is `None`. */
  function SearchLdapUser(cfg: DirectoryConfig, dir: Directory, username: string): (r: Result<Option<(string, UserInfo)>, Thrown>)
    ensures dir.open(SearchBind(cfg)).Some? ==> r == Failure(LibraryFault(dir.open(SearchBind(cfg)).value))
    ensures dir.open(SearchBind(cfg)).None? && FormatFilter(cfg.userFilter, username).None? ==>
              r == Failure(FilterFormatError)
    ensures dir.open(SearchBind(cfg)).None? && FormatFilter(cfg.userFilter, username).Some? ==>
              var found := dir.search(cfg.baseDn, FormatFilter(cfg.userFilter, username).value);
              && (found.Fails? ==> r == Failure(LibraryFault(found.fault)))
              && (found == Done([]) ==> r == Success(None))
              && (found.Done? && found.value != [] ==>
                    r == Success(Some((found.value[0].dn, UserInfoOf(found.value[0], cfg, username)))))
    ensures r.Success? && r.value.Some? ==>
              exists entries: seq<Entry> :: FormatFilter(cfg.userFilter, username).Some?
                && dir.search(cfg.baseDn, FormatFilter(cfg.userFilter, username).value) == Done(entries)
                && entries != [] && r.value.value == (entries[0].dn, UserInfoOf(entries[0], cfg, username))
  {
    match dir.open(SearchBind(cfg))
    case Some(f) => Failure(LibraryFault(f))
    case None =>
      match FormatFilter(cfg.userFilter, username)
      case None => Failure(FilterFormatError)
      case Some(filter) =>
        match dir.search(cfg.baseDn, filter)
        case Fails(f) => Failure(LibraryFault(f))
        case Done(entries) =>
          if entries == [] then Success(None)
          else Success(Some((entries[0].dn, UserInfoOf(entries[0], cfg, username))))
  }

  // ---------------------------------------------------------------------------
  // Authentication

  /** The `except` clauses, in order: `LDAPBindError` becomes an authentication
      error, any other `LDAPException` a connection error, and anything else,
      the adapter's own connection error included, an authentication error. */
  function MapException(t: Thrown): (e: LdapError)
    ensures e == LdapConnectionError <==> t == LibraryFault(ProtocolFault)
  {
    match t
    case LibraryFault(BindFault) => LdapAuthenticationError
    case LibraryFault(ProtocolFault) => LdapConnectionError
    case LibraryFault(ForeignFault) => LdapAuthenticationError
    case AdapterConnectionError(_) => LdapAuthenticationError
    case FilterFormatError => LdapAuthenticationError
  }

  /** `authenticate_ldap_user(username, password, settings)`. */
  function AuthenticateLdapUser(username: string, password: string, cfg: DirectoryConfig, dir: Directory): (r: LdapOutcome)
    ensures !cfg.enabled ==> r == Raised(LdapAuthenticationError)
    ensures cfg.enabled && (username == "" || password == "") ==> r == NotAuthenticated
    ensures r.Authenticated? ==> r.info.username == username
    ensures cfg.enabled && username != "" && password != "" && CreateLdapServer(cfg, dir).Failure? ==>
              r == Raised(MapException(CreateLdapServer(cfg, dir).error))
    ensures cfg.enabled && username != "" && password != "" && CreateLdapServer(cfg, dir).Success? ==>
              var found := SearchLdapUser(cfg, dir, username);
              && (found.Failure? ==> r == Raised(MapException(found.error)))
              && (found == Success(None) ==> r == NotAuthenticated)
              && (found.Success? && found.value.Some? ==>
                    var bound := dir.bind(found.value.value.0, password);
                    && (bound.Fails? ==> r == Raised(MapException(LibraryFault(bound.fault))))
                    && (bound == Done(false) ==> r == NotAuthenticated)
                    && (bound == Done(true) ==> r == Authenticated(found.value.value.1)))
  {
    if !cfg.enabled then Raised(LdapAuthenticationError)
    else if username == "" || password == "" then NotAuthenticated
    else
      match CreateLdapServer(cfg, dir)
      case Failure(t) => Raised(MapException(t))
      case Success(_) =>
        match SearchLdapUser(cfg, dir, username)
        case Failure(t) => Raised(MapException(t))
        case Success(None) => NotAuthenticated
        case Success(Some((dn, info))) =>
          match dir.bind(dn, password)
          case Fails(f) => Raised(MapException(LibraryFault(f)))
          case Done(false) => NotAuthenticated
          case Done(true) => Authenticated(info)
  }

  /** With empty credentials the directory is never consulted: the outcome is
      the same whatever the directory would have answered. */
  lemma EmptyCredentialsSkipDirectory(username: string, password: string, cfg: DirectoryConfig, d1: Directory, d2: Directory)
    requires username == "" || password == ""
    ensures AuthenticateLdapUser(username, password, cfg, d1) == AuthenticateLdapUser(username, password, cfg, d2)
  {
  }

  /** Only a successful bind as the found entry with the submitted password
      authenticates, and the information returned is read from that entry. */
  lemma {:induction false} AuthenticatedMeansUserBind(username: string, password: string, cfg: DirectoryConfig, dir: Directory)
    requires AuthenticateLdapUser(username, password, cfg, dir).Authenticated?
    ensures cfg.enabled && username != "" && password != "" && cfg.server != ""
    ensures exists entries: seq<Entry> :: FormatFilter(cfg.userFilter, username).Some?
              && dir.search(cfg.baseDn, FormatFilter(cfg.userFilter, username).value) == Done(entries)
              && entries != []
              && dir.bind(entries[0].dn, password) == Done(true)
              && AuthenticateLdapUser(username, password, cfg, dir).info == UserInfoOf(entries[0], cfg, username)
  {
    var found := SearchLdapUser(cfg, dir, username);
    assert found.Success? && found.value.Some?;
    var entries: seq<Entry> :| FormatFilter(cfg.userFilter, username).Some?
                && dir.search(cfg.baseDn, FormatFilter(cfg.userFilter, username).value) == Done(entries)
                && entries != [] && found.value.value == (entries[0].dn, UserInfoOf(entries[0], cfg, username));
    assert dir.bind(entries[0].dn, password) == Done(true);
  }

  /** Conversely, a hit whose DN accepts the submitted password authenticates
      the user, with the information read from that entry. */
  lemma UserBindAuthenticates(username: string, password: string, cfg: DirectoryConfig, dir: Directory,
                              filter: string, entries: seq<Entry>)
    requires cfg.enabled && username != "" && password != ""
    requires CreateLdapServer(cfg, dir).Success? && dir.open(SearchBind(cfg)).None?
    requires FormatFilter(cfg.userFilter, username) == Some(filter)
    requires dir.search(cfg.baseDn, filter) == Done(entries) && entries != []
    requires dir.bind(entries[0].dn, password) == Done(true)
    ensures AuthenticateLdapUser(username, password, cfg, dir) == Authenticated(UserInfoOf(entries[0], cfg, username))
  {
  }

  /** No search hit, or a rejected user bind, gives `None` rather than an error. */
  lemma NegativeAnswersAreNone(username: string, password: string, cfg: DirectoryConfig, dir: Directory, filter: string)
    requires cfg.enabled && username != "" && password != ""
    requires CreateLdapServer(cfg, dir).Success? && dir.open(SearchBind(cfg)).None?
    requires FormatFilter(cfg.userFilter, username) == Some(filter)
    ensures dir.search(cfg.baseDn, filter) == Done([]) ==> AuthenticateLdapUser(username, password, cfg, dir) == NotAuthenticated
    ensures (dir.search(cfg.baseDn, filter).Done? && dir.search(cfg.baseDn, filter).value != []
             && dir.bind(dir.search(cfg.baseDn, filter).value[0].dn, password) == Done(false))
            ==> AuthenticateLdapUser(username, password, cfg, dir) == NotAuthenticated
  {
  }

  /** A missing server setting, with LDAP enabled and both credentials given,
      surfaces as `LDAPAuthenticationError`: the adapter's own
      `LDAPConnectionError` is caught by the catch-all clause. */
  lemma MissingServerIsAuthenticationError(username: string, password: string, cfg: DirectoryConfig, dir: Directory)
    requires cfg.enabled && username != "" && password != "" && cfg.server == ""
    ensures AuthenticateLdapUser(username, password, cfg, dir) == Raised(LdapAuthenticationError)
  {
  }

  /** `test_ldap_connection`: `False` on any exception, otherwise what the
      anonymous bind returned. It does not look at the enabled flag. */
  function TestLdapConnection(cfg: DirectoryConfig, dir: Directory): (ok: bool)
    ensures ok <==> CreateLdapServer(cfg, dir).Success? && dir.probe == Done(true)
  {
    match CreateLdapServer(cfg, dir)
    case Failure(_) => false
    case Success(_) =>
      match dir.probe
      case Fails(_) => false
      case Done(b) => b
  }
}
