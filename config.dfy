/** The settings record of app/core/config.py and its two comma-list
    properties, `BACKEND_CORS_ORIGINS` and `ALLOWED_HOSTS`. */
module Config {
  import opened Wrappers
  import opened Text

  /** The settings the core reads. Durations are whole minutes and days, as
      declared; `databaseUrl` is `None` when unset. */
  datatype Settings = Settings(
    environment: string,
    secretKey: string,
    accessTokenExpireMinutes: int,
    refreshTokenExpireDays: int,
    algorithm: string,
    corsOriginsText: string,
    allowedHostsText: string,
    databaseUrl: Option<string>)

  const DefaultCorsOrigins: string := "http://localhost:3000,http://localhost:8080"
  const DefaultAllowedHosts: string := "localhost,127.0.0.1"

  /** The values `Settings()` takes when nothing is set in the environment. */
  const Defaults: Settings := Settings(
    "development",
    "your-secret-key-change-this-in-production",
    30,
    7,
    "HS256",
    DefaultCorsOrigins,
    DefaultAllowedHosts,
    None)

  /** Every attribute name the `Settings` class declares. Reading any other
      name from a settings object raises `AttributeError`. */
  const DeclaredFields: set<string> := {
    "PROJECT_NAME", "DESCRIPTION", "VERSION", "ENVIRONMENT", "API_V1_STR",
    "HOST", "PORT", "RELOAD", "SECRET_KEY", "ACCESS_TOKEN_EXPIRE_MINUTES",
    "REFRESH_TOKEN_EXPIRE_DAYS", "ALGORITHM", "BACKEND_CORS_ORIGINS_STR",
    "ALLOWED_HOSTS_STR", "DATABASE_URL", "DB_ECHO", "REDIS_URL", "SMTP_TLS",
    "SMTP_PORT", "SMTP_HOST", "SMTP_USER", "SMTP_PASSWORD", "EMAILS_FROM_EMAIL",
    "EMAILS_FROM_NAME", "LOG_LEVEL", "LOG_FORMAT", "ENABLE_RATE_LIMITING",
    "ENABLE_METRICS", "ENABLE_DOCS", "BACKEND_CORS_ORIGINS", "ALLOWED_HOSTS"
  }

  /** A list entry as the comma-list properties produce it. */
  predicate CleanEntry(e: string) {
    e != "" && Trimmed(e) && ',' !in e
  }

  predicate CommaFree(pieces: seq<string>) {
    forall p :: p in pieces ==> ',' !in p
  }

  lemma CleanIsCommaFree(entries: seq<string>)
    requires forall e :: e in entries ==> CleanEntry(e)
    ensures CommaFree(entries)
  {
    forall p | p in entries ensures ',' !in p {
      assert CleanEntry(p);
    }
  }

  /** The stripped, non-empty pieces, in order. */
  function KeptPieces(pieces: seq<string>): (r: seq<string>)
    requires CommaFree(pieces)
    ensures |r| <= |pieces|
    ensures forall e :: e in r ==> CleanEntry(e)
    ensures forall p :: p in pieces && Strip(p) != "" ==> Strip(p) in r
    decreases |pieces|
  {
    if pieces == [] then []
    else
      var e := Strip(pieces[0]);
      var rest := KeptPieces(pieces[1..]);
      assert forall p :: p in pieces[1..] ==> p in pieces;
      if e != "" then [e] + rest else rest
  }

  /** `[i.strip() for i in text.split(",") if i.strip()]`, or `[]` for an empty
      text: every comma-separated piece that is not blank contributes its
      stripped form, and every entry is such a stripped piece. */
  function CommaList(text: string): (r: seq<string>)
    ensures text == "" ==> r == []
    ensures forall e :: e in r ==> CleanEntry(e)
    ensures forall p :: p in Split(text, ',') && Strip(p) != "" ==> Strip(p) in r
    ensures forall e :: e in r ==> exists p :: p in Split(text, ',') && e == Strip(p)
  {
    if text == "" then
      assert Split(text, ',') == [""];
      assert Strip("") == "";
      []
    else
      var pieces := Split(text, ',');
      KeptPiecesSources(pieces);
      KeptPieces(pieces)
  }

  /** The `BACKEND_CORS_ORIGINS` property. */
  function CorsOrigins(settings: Settings): (r: seq<string>)
    ensures r == CommaList(settings.corsOriginsText)
    ensures settings.corsOriginsText == "" ==> r == []
    ensures forall e :: e in r ==> CleanEntry(e)
    ensures forall p :: p in Split(settings.corsOriginsText, ',') && Strip(p) != "" ==> Strip(p) in r
    ensures forall e :: e in r ==> exists p :: p in Split(settings.corsOriginsText, ',') && e == Strip(p)
  {
    CommaList(settings.corsOriginsText)
  }

  /** The `ALLOWED_HOSTS` property. */
  function AllowedHosts(settings: Settings): (r: seq<string>)
    ensures r == CommaList(settings.allowedHostsText)
    ensures settings.allowedHostsText == "" ==> r == []
    ensures forall e :: e in r ==> CleanEntry(e)
    ensures forall p :: p in Split(settings.allowedHostsText, ',') && Strip(p) != "" ==> Strip(p) in r
    ensures forall e :: e in r ==> exists p :: p in Split(settings.allowedHostsText, ',') && e == Strip(p)
  {
    CommaList(settings.allowedHostsText)
  }

  /** The empty text is no exception: its single piece is blank, so in every
      case the list is the kept pieces of the text split at commas. */
  lemma CommaListKept(text: string)
    ensures CommaFree(Split(text, ','))
    ensures CommaList(text) == KeptPieces(Split(text, ','))
  {
    if text == "" {
      assert Split(text, ',') == [""];
      assert Strip("") == "";
      assert KeptPieces([""]) == KeptPieces([]);
    }
  }

  /** A text without a comma gives its stripped form, or nothing when blank. */
  lemma CommaListPiece(p: string)
    requires ',' !in p
    ensures CommaList(p) == (if Strip(p) == "" then [] else [Strip(p)])
  {
    SplitFree(p, ',');
    CommaListKept(p);
    assert KeptPieces([p][1..]) == [];
  }

  /** The entries of `a,b` are those of `a` followed by those of `b`. With
      `CommaListPiece` this fixes the list exactly: one entry per non-blank
      piece, in the order of the pieces, duplicates kept. */
  lemma CommaListConcat(a: string, b: string)
    ensures CommaList(a + "," + b) == CommaList(a) + CommaList(b)
  {
    assert a + "," + b == a + [','] + b;
    SplitConcat(a, b, ',');
    CommaListKept(a);
    CommaListKept(b);
    CommaListKept(a + "," + b);
    KeptPiecesAppend(Split(a, ','), Split(b, ','));
  }

  /** Every kept entry is the stripped form of one of the pieces: nothing is invented. */
  lemma {:induction false} KeptPiecesSources(pieces: seq<string>)
    requires CommaFree(pieces)
    ensures forall e :: e in KeptPieces(pieces) ==> exists p :: p in pieces && e == Strip(p)
    decreases |pieces|
  {
    if pieces != [] {
      var tail := pieces[1..];
      assert forall p :: p in tail ==> p in pieces;
      KeptPiecesSources(tail);
      forall e | e in KeptPieces(pieces) ensures exists p :: p in pieces && e == Strip(p) {
        if e == Strip(pieces[0]) {
          assert pieces[0] in pieces;
        } else {
          assert e in KeptPieces(tail);
          var p :| p in tail && e == Strip(p);
          assert p in pieces;
        }
      }
    }
  }

  /** Keeping pieces distributes over concatenation, so the kept entries
      appear in the order of the pieces they come from. */
  lemma {:induction false} KeptPiecesAppend(a: seq<string>, b: seq<string>)
    requires CommaFree(a) && CommaFree(b)
    ensures CommaFree(a + b)
    ensures KeptPieces(a + b) == KeptPieces(a) + KeptPieces(b)
    decreases |a|
  {
    assert forall p :: p in a + b ==> p in a || p in b;
    if a == [] {
      assert a + b == b;
    } else {
      assert (a + b)[1..] == a[1..] + b;
      assert forall p :: p in a[1..] ==> p in a;
      KeptPiecesAppend(a[1..], b);
    }
  }

  /** Pieces that are already clean are all kept, unchanged and in order. */
  lemma {:induction false} KeptPiecesClean(entries: seq<string>)
    requires forall e :: e in entries ==> CleanEntry(e)
    ensures CommaFree(entries) && KeptPieces(entries) == entries
    decreases |entries|
  {
    CleanIsCommaFree(entries);
    if entries != [] {
      var head, tail := entries[0], entries[1..];
      assert head in entries;
      assert CleanEntry(head);
      StripTrimmed(head);
      assert forall e :: e in tail ==> e in entries;
      KeptPiecesClean(tail);
      calc {
        KeptPieces(entries);
        [Strip(head)] + KeptPieces(tail);
        [head] + tail;
        entries;
      }
    }
  }

  /** Writing a list of clean entries as a comma-joined text and reading it
      back gives the same list: nothing is lost, reordered or invented. */
  lemma CommaListJoin(entries: seq<string>)
    requires forall e :: e in entries ==> CleanEntry(e)
    ensures CommaList(Join(entries, ',')) == entries
  {
    if entries != [] {
      var text := Join(entries, ',');
      assert CleanEntry(entries[0]) by { assert entries[0] in entries; }
      JoinNonEmpty(entries);
      SplitJoin(entries, ',');
      KeptPiecesClean(entries);
    }
  }

  lemma {:induction false} JoinNonEmpty(entries: seq<string>)
    requires entries != []
    requires entries[0] != ""
    ensures Join(entries, ',') != ""
  {
    if |entries| > 1 {
      assert |Join(entries, ',')| >= |entries[0]|;
    }
  }

  /** The default settings give the two localhost origins ... */
  lemma DefaultOrigins()
    ensures CorsOrigins(Defaults) == ["http://localhost:3000", "http://localhost:8080"]
  {
    var a, b := "http://localhost:3000", "http://localhost:8080";
    assert Join([a, b], ',') == a + [','] + b;
    assert a + [','] + b == DefaultCorsOrigins;
    assert CleanEntry(a) by { assert forall i :: 0 <= i < |a| ==> a[i] != ','; }
    assert CleanEntry(b) by { assert forall i :: 0 <= i < |b| ==> b[i] != ','; }
    CommaListJoin([a, b]);
  }

  /** ... and the two local hosts. */
  lemma DefaultHosts()
    ensures AllowedHosts(Defaults) == ["localhost", "127.0.0.1"]
  {
    var a, b := "localhost", "127.0.0.1";
    assert Join([a, b], ',') == a + [','] + b;
    assert a + [','] + b == DefaultAllowedHosts;
    assert CleanEntry(a) by { assert forall i :: 0 <= i < |a| ==> a[i] != ','; }
    assert CleanEntry(b) by { assert forall i :: 0 <= i < |b| ==> b[i] != ','; }
    CommaListJoin([a, b]);
  }
}
