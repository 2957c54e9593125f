/** The request and response records of app/schemas that the core builds or
    reads, reduced to the fields the core uses. */
module Schemas {
  import opened Wrappers
  import opened Text

  // ---------------------------------------------------------------------------
  // `EmailStr`: pydantic's `validate_email` followed by the normalised form of
  // the address. The input may be a bare address or `Display Name <address>`;
  // what is stored is the address with its domain lower-cased.

  /** A character allowed in an unquoted display name: `\w` over ASCII and the
      specials of an atom. */
  predicate NameChar(c: char) {
    || 'a' <= c <= 'z' || 'A' <= c <= 'Z' || '0' <= c <= '9'
    || c in "_!#$%&'*+-/=?^`{|}~"
  }

  /** The address of `u` when `u`, already stripped, has the form
      `name <address>`: it ends in `>`, the name before its first `<` is made of
      name characters and whitespace, and the address between is non-empty and
      on one line. */
  function Bracketed(u: string): (r: Option<string>)
    ensures r.Some? ==> forall c :: c in r.value ==> c in u
  {
    if u != [] && u[|u| - 1] == '>' && '<' in u then
      var i := IndexOf(u, '<');
      var name, inner := u[..i], u[i + 1..|u| - 1];
      if inner != [] && '\n' !in inner && forall c :: c in name ==> NameChar(c) || IsSpace(c) then Some(inner)
      else None
    else None
  }

  /** The text pydantic goes on to validate: the address inside the stripped
      input when that has the form `name <address>`, and otherwise the input
      itself. */
  function Unwrap(s: string): (r: string)
    ensures forall c :: c in r ==> c in s
  {
    match Bracketed(Strip(s))
    case Some(inner) => inner
    case None => s
  }

  /** A character an unquoted address may hold: no whitespace and no angle bracket. */
  predicate AddressChar(c: char) {
    !IsSpace(c) && c != '<' && c != '>'
  }

  /** At least two non-empty dot-separated labels. */
  predicate DomainShape(d: string) {
    var labels := Split(d, '.');
    |labels| >= 2 && forall l :: l in labels ==> l != ""
  }

  /** Exactly one `@`, a non-empty local part before it, a domain of at least
      two non-empty labels after it, and only address characters. */
  predicate EmailShape(e: string) {
    var parts := Split(e, '@');
    && |parts| == 2
    && parts[0] != ""
    && DomainShape(parts[1])
    && forall c :: c in e ==> AddressChar(c)
  }

  /** The address `EmailStr` stores for `s`, or `None` when validation fails:
      the unwrapped text, stripped, with its local part kept and its domain
      lower-cased. */
  function NormalEmail(s: string): (r: Option<string>)
    ensures r.Some? ==> EmailShape(Strip(Unwrap(s)))
    ensures r.Some? ==> exists local, domain :: Strip(Unwrap(s)) == local + "@" + domain
                          && r.value == local + "@" + Lower(domain)
  {
    var e := Strip(Unwrap(s));
    if EmailShape(e) then
      var parts := Split(e, '@');
      JoinSplit(e, '@');
      assert e == parts[0] + "@" + parts[1];
      Some(parts[0] + "@" + Lower(parts[1]))
    else None
  }

  /** `EmailStr` accepts `s`. */
  predicate ValidEmail(s: string) {
    NormalEmail(s).Some?
  }

  /** Text whose stripped form does not end in `>` is validated as it is. */
  lemma UnwrapNeedsBracket(s: string)
    requires Strip(s) != [] && Strip(s)[|Strip(s)| - 1] != '>'
    ensures Unwrap(s) == s
  {
  }

  /** A bare address made of address characters is stored with only its domain
      lower-cased. */
  lemma NormalAddress(local: string, domain: string)
    requires local != "" && '@' !in local && '@' !in domain
    requires DomainShape(domain)
    requires forall c :: c in local + domain ==> AddressChar(c)
    ensures Strip(Unwrap(local + "@" + domain)) == local + "@" + domain
    ensures NormalEmail(local + "@" + domain) == Some(local + "@" + Lower(domain))
  {
    var s := local + "@" + domain;
    assert s == local + ['@'] + domain;
    assert forall c :: c in s ==> c in local + domain || c == '@';
    StripNoSpace(s);
    assert s[|s| - 1] in s;
    UnwrapNeedsBracket(s);
    SplitPrefix(local, domain, '@');
    SplitFree(domain, '@');
    assert Split(s, '@') == [local, domain];
    assert EmailShape(s);
  }

  /** Validation depends on the input only through the stripped, unwrapped text. */
  lemma SameValidatedText(s: string, t: string)
    requires Strip(Unwrap(s)) == Strip(Unwrap(t))
    ensures NormalEmail(s) == NormalEmail(t)
  {
  }

  /** A text ending in `>` whose first `<` follows a name of name characters
      and whitespace yields the non-empty, one-line text between them. */
  lemma BracketedAt(u: string, m: nat)
    requires m + 2 < |u| && u[|u| - 1] == '>' && u[m] == '<' && '<' !in u[..m]
    requires '\n' !in u[m + 1..|u| - 1]
    requires forall c :: c in u[..m] ==> NameChar(c) || IsSpace(c)
    ensures Bracketed(u) == Some(u[m + 1..|u| - 1])
  {
    assert u[m] in u;
    IndexOfUnique(u, '<', m);
  }

  /** Where the pieces of `kept <addr>` sit. */
  lemma BracketedParts(kept: string, addr: string)
    requires addr != ""
    ensures var u := kept + (['<'] + addr + ['>']);
            && |kept| + 2 < |u| && u[|u| - 1] == '>' && u[|kept|] == '<'
            && u[..|kept|] == kept && u[|kept| + 1..|u| - 1] == addr
  {
  }

  /** A stripped `name <address>` yields its address. */
  lemma DisplayNameBracketed(name: string, addr: string)
    requires forall c :: c in name ==> NameChar(c) || IsSpace(c)
    requires addr != "" && '\n' !in addr
    ensures Bracketed(name + (['<'] + addr + ['>'])) == Some(addr)
  {
    BracketedParts(name, addr);
    BracketedAt(name + (['<'] + addr + ['>']), |name|);
  }

  /** `name <address>` is unwrapped to the address whenever the name is made of
      name characters and whitespace and the address is non-empty and on one
      line; whitespace before the name is stripped first. */
  lemma UnwrapDisplayName(name: string, addr: string)
    requires forall c :: c in name ==> NameChar(c) || IsSpace(c)
    requires addr != "" && '\n' !in addr
    ensures Unwrap(name + "<" + addr + ">") == addr
  {
    var q := ['<'] + addr + ['>'];
    assert name + "<" + addr + ">" == name + q;
    UnwrapBracketed(name, q, addr);
  }

  lemma UnwrapBracketed(name: string, q: string, addr: string)
    requires forall c :: c in name ==> NameChar(c) || IsSpace(c)
    requires addr != "" && '\n' !in addr && q == ['<'] + addr + ['>']
    ensures Unwrap(name + q) == addr
  {
    var kept := name[LeadingSpace(name)..];
    assert forall c :: c in kept ==> c in name;
    DisplayNameBracketed(kept, addr);
    StripKeepsTail(name, q);
    UnwrapVia(name + q, kept + q, addr);
  }

  /** Unwrapping reads the stripped text only. */
  lemma UnwrapVia(s: string, u: string, inner: string)
    requires Strip(s) == u && Bracketed(u) == Some(inner)
    ensures Unwrap(s) == inner
  {
  }

  /** An address given as `name <address>` is stored as the bare address would be. */
  lemma DisplayNameAddress(name: string, local: string, domain: string)
    requires forall c :: c in name ==> NameChar(c) || IsSpace(c)
    requires local != "" && '@' !in local && '@' !in domain
    requires DomainShape(domain)
    requires forall c :: c in local + domain ==> AddressChar(c)
    ensures NormalEmail(name + "<" + (local + "@" + domain) + ">") == Some(local + "@" + Lower(domain))
  {
    var addr := local + "@" + domain;
    assert addr == local + ['@'] + domain;
    assert forall c :: c in addr ==> c in local + domain || c == '@';
    UnwrapDisplayName(name, addr);
    NormalAddress(local, domain);
    StripNoSpace(addr);
    SameValidatedText(name + "<" + addr + ">", addr);
  }

  /** Whitespace around a bare address is stripped before it is checked. */
  lemma PaddedAddress(pre: string, local: string, domain: string, post: string)
    requires AllSpace(pre) && AllSpace(post)
    requires local != "" && '@' !in local && '@' !in domain
    requires DomainShape(domain)
    requires forall c :: c in local + domain ==> AddressChar(c)
    ensures NormalEmail(pre + (local + "@" + domain) + post) == Some(local + "@" + Lower(domain))
  {
    var addr := local + "@" + domain;
    var s := pre + addr + post;
    assert addr == local + ['@'] + domain;
    assert forall c :: c in addr ==> c in local + domain || c == '@';
    assert addr[0] in addr && addr[|addr| - 1] in addr;
    StripPadded(pre, addr, post);
    UnwrapNeedsBracket(s);
    NormalAddress(local, domain);
    SameValidatedText(s, addr);
  }

  /** A validated address splits into a local part and a domain that meet
      what `NormalAddress` asks of them. */
  lemma ShapeParts(e: string)
    requires EmailShape(e)
    ensures var parts := Split(e, '@');
            && e == parts[0] + "@" + parts[1]
            && parts[0] != "" && '@' !in parts[0] && '@' !in parts[1]
            && DomainShape(parts[1])
            && forall c :: c in parts[0] + parts[1] ==> AddressChar(c)
  {
    var parts := Split(e, '@');
    JoinSplit(e, '@');
    assert parts[0] in parts && parts[1] in parts;
    assert e == parts[0] + ['@'] + parts[1];
    forall c | c in parts[0] + parts[1] ensures AddressChar(c) {
      assert c in e;
    }
  }

  /** Lower-casing a domain keeps its labels non-empty. */
  lemma LowerDomainShape(d: string)
    requires DomainShape(d)
    ensures DomainShape(Lower(d))
  {
    SplitLower(d, '.');
    var labels, lowered := Split(d, '.'), Split(Lower(d), '.');
    forall l | l in lowered ensures l != "" {
      var k :| 0 <= k < |lowered| && lowered[k] == l;
      assert labels[k] in labels;
    }
  }

  /** Lower-casing maps address characters to address characters and adds no `@`. */
  lemma LowerAddressChars(local: string, d: string)
    requires '@' !in d && forall c :: c in local + d ==> AddressChar(c)
    ensures '@' !in Lower(d) && forall c :: c in local + Lower(d) ==> AddressChar(c)
  {
    var lowered := Lower(d);
    forall c | c in lowered ensures AddressChar(c) && c != '@' {
      var k :| 0 <= k < |lowered| && lowered[k] == c;
      assert d[k] in local + d;
    }
    forall c | c in local + lowered ensures AddressChar(c) {
      if c in local {
        assert c in local + d;
      } else {
        assert c in lowered;
      }
    }
  }

  /** Normalising a stored address gives it back unchanged. */
  lemma NormalEmailIdempotent(s: string)
    requires ValidEmail(s)
    ensures NormalEmail(NormalEmail(s).value) == NormalEmail(s)
  {
    var e := Strip(Unwrap(s));
    ShapeParts(e);
    var parts := Split(e, '@');
    var local, domain := parts[0], parts[1];
    assert NormalEmail(s) == Some(local + "@" + Lower(domain));
    LowerDomainShape(domain);
    LowerAddressChars(local, domain);
    NormalAddress(local, Lower(domain));
    LowerIdempotent(domain);
  }

  /** A name without `@`, such as a bare login name, is not an email address. */
  lemma NoAtIsNotEmail(s: string)
    requires '@' !in s
    ensures !ValidEmail(s)
  {
    var e := Strip(Unwrap(s));
    assert '@' !in e;
    SplitFree(e, '@');
  }

  /** The directory's fallback `username@unknown` is never an email address:
      its domain has a single label. */
  lemma UnknownDomainIsNotEmail(username: string)
    ensures !ValidEmail(username + "@unknown")
  {
    var domain := "unknown";
    var s := username + "@unknown";
    var kept := username[LeadingSpace(username)..];
    var t := kept + ['@'] + domain;
    assert "@unknown" == ['@'] + domain;
    StripKeepsTail(username, "@unknown");
    assert Strip(s) == t;
    assert t[|t| - 1] == 'n';
    UnwrapNeedsBracket(s);
    assert '@' !in domain && '.' !in domain;
    SplitSuffix(kept, domain, '@');
    SplitFree(domain, '.');
    var parts := Split(t, '@');
    if |parts| == 2 {
      assert parts[1] == domain;
    }
  }

  /** `local@name.top` is an email address, stored as given with `name.top`
      lower-cased, when its three parts are non-empty and free of separators,
      whitespace and angle brackets. */
  lemma AddressIsEmail(local: string, name: string, top: string)
    requires local != "" && name != "" && top != ""
    requires '@' !in local && '@' !in name && '@' !in top
    requires '.' !in name && '.' !in top
    requires forall c :: c in local + name + top ==> AddressChar(c)
    ensures NormalEmail(local + "@" + (name + "." + top)) == Some(local + "@" + Lower(name + "." + top))
  {
    var domain := name + ['.'] + top;
    assert '@' !in domain;
    SplitPrefix(name, top, '.');
    SplitFree(top, '.');
    assert Split(domain, '.') == [name, top];
    forall c | c in local + domain ensures AddressChar(c) {
      assert c in local + name + top || c == '.';
    }
    NormalAddress(local, domain);
  }

  /** The parts of the demonstration account's address meet what
      `AddressIsEmail` asks of them. */
  lemma MockParts(local: string, name: string, top: string)
    requires local == "test" && name == "example" && top == "com"
    ensures local != "" && name != "" && top != ""
    ensures '@' !in local && '@' !in name && '@' !in top && '.' !in name && '.' !in top
    ensures forall c :: c in local + name + top ==> AddressChar(c)
    ensures forall k :: 0 <= k < |name + "." + top| ==> !('A' <= (name + "." + top)[k] <= 'Z')
    ensures local + "@" + (name + "." + top) == "test@example.com"
  {
    assert forall c :: c in local + name + top ==> 'a' <= c <= 'z';
  }

  /** The demonstration account's address is one, and already in normal form. */
  lemma MockAddressIsEmail()
    ensures NormalEmail("test@example.com") == Some("test@example.com")
  {
    var local, name, top := "test", "example", "com";
    MockParts(local, name, top);
    AddressIsEmail(local, name, top);
    LowerFixed(name + "." + top);
  }

  /** The authenticated principal (`schemas.user.User`). */
  datatype User = User(id: int, email: string, fullName: string, isActive: bool, isSuperuser: bool)

  /** What the user endpoints return (`UserResponse`). */
  datatype UserResponse = UserResponse(id: int, email: string, fullName: string, isActive: bool, createdAt: string)

  /** Registration and creation payload (`UserCreate`). */
  datatype UserCreate = UserCreate(email: string, fullName: string, password: string)

  /** Partial update payload (`UserUpdate`); absent fields are `None`. */
  datatype UserUpdate = UserUpdate(email: Option<string>, fullName: Option<string>)

  /** What the item endpoints return (`ItemResponse`). */
  datatype Item = Item(id: int, title: string, description: Option<string>, ownerId: int,
                       createdAt: string, updatedAt: string)

  /** Item creation payload (`ItemCreate`). */
  datatype ItemCreate = ItemCreate(title: string, description: Option<string>)

  /** Partial update payload (`ItemUpdate`). */
  datatype ItemUpdate = ItemUpdate(title: Option<string>, description: Option<string>)

  /** A raised `HTTPException`. */
  datatype HttpError = HttpError(status: int, detail: string)

  /** The fixed timestamp the placeholder handlers report. */
  const PlaceholderCreatedAt: string := "2024-01-01T00:00:00Z"

  /** Python's `value or fallback` on an optional string: `None` and `""` are falsy. */
  function OrElse(value: Option<string>, fallback: string): (r: string)
    ensures value.Some? && value.value != "" ==> r == value.value
    ensures value.None? || value.value == "" ==> r == fallback
  {
    if value.Some? && value.value != "" then value.value else fallback
  }
}
