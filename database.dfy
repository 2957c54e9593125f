/** `get_database_url` of app/utils/database.py: choose the configured URL or
    the SQLite default, and rewrite a synchronous driver to its asynchronous
    counterpart when the async engine asks. */
module Database {
  import opened Wrappers
  import opened Text

  const SyncDefault: string := "sqlite:///./app.db"
  const AsyncDefault: string := "sqlite+aiosqlite:///./app.db"

  /** A URL counts as configured when it is set and non-empty (`if not DATABASE_URL`). */
  predicate Configured(databaseUrl: Option<string>) {
    databaseUrl.Some? && databaseUrl.value != ""
  }

  /** Already names an asynchronous driver (`startswith(("postgresql+asyncpg", "sqlite+aiosqlite"))`). */
  predicate AsyncDriver(url: string) {
    StartsWith(url, "postgresql+asyncpg") || StartsWith(url, "sqlite+aiosqlite")
  }

  function GetDatabaseUrl(databaseUrl: Option<string>, asyncMode: bool): (r: string)
    ensures !Configured(databaseUrl) ==> r == (if asyncMode then AsyncDefault else SyncDefault)
    ensures Configured(databaseUrl) && !asyncMode ==> r == databaseUrl.value
    ensures Configured(databaseUrl) && asyncMode && AsyncDriver(databaseUrl.value) ==> r == databaseUrl.value
    ensures Configured(databaseUrl) && !Contains(databaseUrl.value, "postgresql") ==>
              !Contains(databaseUrl.value, "sqlite") ==> r == databaseUrl.value
  {
    if !Configured(databaseUrl) then
      if asyncMode then AsyncDefault else SyncDefault
    else
      var url := databaseUrl.value;
      if asyncMode && !AsyncDriver(url) then
        if Contains(url, "postgresql") then ReplaceAll(url, "postgresql://", "postgresql+asyncpg://")
        else if Contains(url, "sqlite") then ReplaceAll(url, "sqlite://", "sqlite+aiosqlite://")
        else url
      else url
  }

  /** An async-mode `postgresql://` URL gets the asyncpg driver and keeps the rest. */
  lemma AsyncPostgresConversion(rest: string)
    requires !Contains(rest, "postgresql://")
    ensures GetDatabaseUrl(Some("postgresql://" + rest), true) == "postgresql+asyncpg://" + rest
  {
    var url := "postgresql://" + rest;
    assert url[10] == ':';
    assert !AsyncDriver(url);
    assert StartsWith(url, "postgresql");
    ReplaceAtFront(rest, "postgresql://", "postgresql+asyncpg://");
    ReplaceAbsent(rest, "postgresql://", "postgresql+asyncpg://");
  }

  /** An async-mode `sqlite://` URL that does not mention postgresql gets the aiosqlite driver. */
  lemma AsyncSqliteConversion(rest: string)
    requires !Contains(rest, "sqlite://")
    requires !Contains("sqlite://" + rest, "postgresql")
    ensures GetDatabaseUrl(Some("sqlite://" + rest), true) == "sqlite+aiosqlite://" + rest
  {
    var url := "sqlite://" + rest;
    assert url[6] == ':' && url[0] == 's';
    assert !AsyncDriver(url);
    assert StartsWith(url, "sqlite");
    ReplaceAtFront(rest, "sqlite://", "sqlite+aiosqlite://");
    ReplaceAbsent(rest, "sqlite://", "sqlite+aiosqlite://");
  }

  /** In async mode every `postgresql://` of a URL that mentions postgresql is
      rewritten: none is left in the result, wherever it stood. */
  lemma AsyncPostgresRemovesScheme(url: string)
    requires url != "" && !AsyncDriver(url) && Contains(url, "postgresql")
    ensures !Contains(GetDatabaseUrl(Some(url), true), "postgresql://")
  {
    var r := GetDatabaseUrl(Some(url), true);
    assert r == ReplaceAll(url, "postgresql://", "postgresql+asyncpg://");
    AsyncpgCannotRecreate();
    ReplaceRemoves(url, "postgresql://", "postgresql+asyncpg://");
    ContainsAt(r, "postgresql://");
  }

  /** The asyncpg scheme neither holds `postgresql://` nor begins one that
      following text could complete, and `p` occurs in `postgresql://` only first. */
  lemma AsyncpgCannotRecreate()
    ensures forall k :: 1 <= k < |"postgresql://"| ==> "postgresql://"[k] != "postgresql://"[0]
    ensures forall i :: 0 <= i < |"postgresql+asyncpg://"| ==>
              !StartsWith("postgresql+asyncpg://"[i..], "postgresql://") &&
              !StartsWith("postgresql://", "postgresql+asyncpg://"[i..])
  {
    var pattern, replacement := "postgresql://", "postgresql+asyncpg://";
    forall k | 1 <= k < |pattern| ensures pattern[k] != pattern[0] {
    }
    forall i | 0 <= i < |replacement|
      ensures !StartsWith(replacement[i..], pattern) && !StartsWith(pattern, replacement[i..])
    {
      if i == 0 {
        assert replacement[10] != pattern[10];
      } else if i == 16 {
        assert replacement[i..][1] != pattern[1];
      } else {
        assert replacement[i..][0] != pattern[0];
      }
    }
  }

  /** The sqlite rewrite cannot remove every `sqlite://`: the aiosqlite scheme
      itself ends in one, so a converted URL still contains it. */
  lemma AsyncSqliteStillMentionsScheme(rest: string)
    requires !Contains(rest, "sqlite://")
    requires !Contains("sqlite://" + rest, "postgresql")
    ensures Contains(GetDatabaseUrl(Some("sqlite://" + rest), true), "sqlite://")
  {
    var r := GetDatabaseUrl(Some("sqlite://" + rest), true);
    AsyncSqliteConversion(rest);
    assert r[10..19] == "sqlite://";
    assert OccursAt(r, "sqlite://", 10);
    ContainsAt(r, "sqlite://");
  }

  /** Converting the synchronous default for the async engine yields the asynchronous default. */
  lemma DefaultsAgree()
    ensures GetDatabaseUrl(Some(SyncDefault), true) == AsyncDefault
  {
    var rest := "/./app.db";
    assert SyncDefault == "sqlite://" + rest && AsyncDefault == "sqlite+aiosqlite://" + rest;
    PathLacksScheme(rest);
    DefaultLacksPostgres("sqlite://" + rest);
    AsyncSqliteConversion(rest);
  }

  lemma PathLacksScheme(rest: string)
    requires rest == "/./app.db"
    ensures !Contains(rest, "sqlite://")
  {
    assert "sqlite://"[0] == 's';
    assert 's' !in rest by {
      forall k | 0 <= k < |rest| ensures rest[k] != 's' {
      }
    }
    MissingCharNotContained(rest, "sqlite://", 's');
  }

  lemma DefaultLacksPostgres(url: string)
    requires url == SyncDefault
    ensures !Contains(url, "postgresql")
  {
    assert "postgresql"[4] == 'g';
    assert 'g' !in url by {
      forall k | 0 <= k < |url| ensures url[k] != 'g' {
      }
    }
    MissingCharNotContained(url, "postgresql", 'g');
  }

  /** The postgresql test comes first: an async-mode URL that mentions
      postgresql but has no `postgresql://` is returned unchanged even when it
      is a SQLite URL (for instance `sqlite:///postgresql.db`), so it keeps its
      synchronous driver. */
  lemma PostgresTestTakesPrecedence(url: string)
    requires url != "" && !AsyncDriver(url)
    requires Contains(url, "postgresql") && !Contains(url, "postgresql://")
    ensures GetDatabaseUrl(Some(url), true) == url
  {
    ReplaceAbsent(url, "postgresql://", "postgresql+asyncpg://");
  }
}
