/**
 Building and rewriting the database DSN (backend/db_url.py).  Environment variables and the
 resolved password are inputs; None stands for a variable that is not set.
 */
module DatabaseUrl {
  import opened Options
  import opened PercentCoding

  datatype Settings = Settings(
    databaseUrl: Option<string>, password: Option<string>, user: Option<string>,
    host: Option<string>, port: Option<string>, name: Option<string>, sslMode: Option<string>)

  // ---------------------------------------------------------------------------
  // The Python string operations
  // ---------------------------------------------------------------------------

  /** What str.strip removes. */
  predicate Space(c: char) {
    var n := c as int;
    || 0x9 <= n <= 0xD || 0x1C <= n <= 0x20 || n == 0x85 || n == 0xA0 || n == 0x1680
    || 0x2000 <= n <= 0x200A || n == 0x2028 || n == 0x2029 || n == 0x202F || n == 0x205F || n == 0x3000
  }

  const BLANKS := {
    '\t', '\n', '\U{0B}', '\U{0C}', '\r', '\U{1C}', '\U{1D}', '\U{1E}', '\U{1F}', ' ', '\U{85}', '\U{A0}',
    '\U{1680}', '\U{2000}', '\U{2001}', '\U{2002}', '\U{2003}', '\U{2004}', '\U{2005}', '\U{2006}', '\U{2007}',
    '\U{2008}', '\U{2009}', '\U{200A}', '\U{2028}', '\U{2029}', '\U{202F}', '\U{205F}', '\U{3000}'}

  /** That is, every Unicode character that Python calls a space. */
  lemma SpacesAreTheBlanks(c: char)
    ensures Space(c) <==> c in BLANKS
  {
  }

  function Strip(text: string): string {
    if text == "" then ""
    else if Space(text[0]) then Strip(text[1..])
    else if Space(text[|text| - 1]) then Strip(text[..|text| - 1])
    else text
  }

  predicate Blank(value: Option<string>) {
    value.None? || Strip(value.value) == ""
  }

  /** str.replace: left to right, never inside what was just replaced. */
  function Replace(text: string, old_: string, new_: string): string
    requires old_ != ""
  {
    if |text| < |old_| then text
    else if text[..|old_|] == old_ then new_ + Replace(text[|old_|..], old_, new_)
    else [text[0]] + Replace(text[1..], old_, new_)
  }

  predicate Contains(text: string, part: string)
    requires part != ""
  {
    |text| >= |part| && (text[..|part|] == part || Contains(text[1..], part))
  }

  /** The two parts around the first occurrence of a separator. */
  function Cut(text: string, separator: string): Option<(string, string)>
    requires separator != ""
  {
    if |text| < |separator| then None
    else if text[..|separator|] == separator then Some(("", text[|separator|..]))
    else
      match Cut(text[1..], separator)
      case Some((before, after)) => Some(([text[0]] + before, after))
      case None => None
  }

  // ---------------------------------------------------------------------------
  // The module's own functions
  // ---------------------------------------------------------------------------

  const ASYNCPG := "+asyncpg"
  const PSYCOPG2 := "+psycopg2"
  const SSL_REQUIRE := "?ssl=require"
  const SSLMODE_REQUIRE := "?sslmode=require"
  const ASYNC_DRIVER := "postgresql+asyncpg"
  const SYNC_DRIVER := "postgresql+psycopg2"

  function ToSync(dsn: string): string {
    Replace(Replace(dsn, ASYNCPG, PSYCOPG2), SSL_REQUIRE, SSLMODE_REQUIRE)
  }

  function Env(value: Option<string>, fallback: string): string {
    if Blank(value) then fallback else Strip(value.value)
  }

  function Mode(s: Settings): string {
    if s.sslMode.None? then "" else Strip(s.sslMode.value)
  }

  function SslSuffix(s: Settings, param: string): string {
    if Mode(s) == "" || Mode(s) == "disable" then "" else "?" + param + "=" + Mode(s)
  }

  function User(s: Settings): string { Env(s.user, "cg") }

  function Host(s: Settings): string { Env(s.host, "localhost") }

  function Port(s: Settings): string { Env(s.port, "5432") }

  function Name(s: Settings): string { Env(s.name, "cg_scf") }

  /** A blank password counts as the empty one. */
  function Password(s: Settings): string {
    if Blank(s.password) then "" else s.password.value
  }

  function Place(host: string, port: string, name: string, suffix: string): string {
    host + (":" + (port + ("/" + (name + suffix))))
  }

  function Head(s: Settings, driver: string): string {
    driver + "://" + Quote(User(s)) + ":" + Quote(Password(s)) + "@"
  }

  function Compose(s: Settings, driver: string, sslParam: string, default: Option<string>): Option<string> {
    if Blank(s.password) && default.Some? then None
    else Some(Head(s, driver) + Place(Host(s), Port(s), Name(s), SslSuffix(s, sslParam)))
  }

  function GetDatabaseUrl(s: Settings, default: Option<string>): Option<string> {
    if !Blank(s.databaseUrl) then s.databaseUrl
    else
      match Compose(s, ASYNC_DRIVER, "ssl", default)
      case Some(dsn) => Some(dsn)
      case None => default
  }

  function GetSyncDatabaseUrl(s: Settings, default: Option<string>): Option<string> {
    if !Blank(s.databaseUrl) then Some(ToSync(s.databaseUrl.value))
    else
      match Compose(s, SYNC_DRIVER, "sslmode", default)
      case Some(dsn) => Some(dsn)
      case None => if default.None? then None else Some(ToSync(default.value))
  }

  /** The DSN is built from its parts rather than given whole. */
  predicate IsComposed(s: Settings, default: Option<string>) {
    Blank(s.databaseUrl) && (default.None? || !Blank(s.password))
  }

  // ---------------------------------------------------------------------------
  // Credentials survive
  // ---------------------------------------------------------------------------

  datatype Reading = Reading(driver: string, user: string, password: string, place: string)

  /** Cut at "://", at the first ":" and at the first "@", and undo the quotation. */
  function ReadDsn(dsn: string): Option<Reading> {
    match Cut(dsn, "://")
    case None => None
    case Some((driver, rest)) =>
      match Cut(rest, ":")
      case None => None
      case Some((user, afterUser)) =>
        match Cut(afterUser, "@")
        case None => None
        case Some((secret, place)) =>
          if Unquote(user).None? || Unquote(secret).None? then None
          else Some(Reading(driver, Unquote(user).value, Unquote(secret).value, place))
  }

  lemma {:induction false} CutAtFirst(before: string, separator: string, after: string)
    requires separator != "" && separator[0] !in before
    ensures Cut(before + separator + after, separator) == Some((before, after))
  {
    var text := before + separator + after;
    if before == "" {
      assert text[..|separator|] == separator && text[|separator|..] == after;
    } else {
      assert text[0] == before[0] && before[0] in before;
      assert text[..|separator|][0] == text[0];
      assert forall c :: c in before[1..] ==> c in before;
      assert text[1..] == before[1..] + separator + after;
      CutAtFirst(before[1..], separator, after);
      assert [before[0]] + before[1..] == before;
    }
  }

  lemma QuoteHasNoDelimiter(text: string)
    ensures ':' !in Quote(text) && '@' !in Quote(text) && '/' !in Quote(text)
    ensures '+' !in Quote(text) && '?' !in Quote(text)
  {
    QuotationIsPlain(Utf8(text));
  }

  lemma CutsComeBack(driver: string, user: string, secret: string, place: string)
    requires ':' !in driver && ':' !in user && '@' !in secret
    ensures Cut(driver + "://" + user + ":" + secret + "@" + place, "://")
         == Some((driver, user + ":" + (secret + "@" + place)))
    ensures Cut(user + ":" + (secret + "@" + place), ":") == Some((user, secret + "@" + place))
    ensures Cut(secret + "@" + place, "@") == Some((secret, place))
  {
    var afterUser := secret + "@" + place;
    var rest := user + ":" + afterUser;
    assert driver + "://" + user + ":" + secret + "@" + place == driver + "://" + rest;
    CutAtFirst(driver, "://", rest);
    CutAtFirst(user, ":", afterUser);
    CutAtFirst(secret, "@", place);
  }

  /** Any user and any password come back from a composed DSN, whatever host, port and name hold. */
  lemma CredentialsComeBack(s: Settings, driver: string, place: string)
    requires ':' !in driver
    ensures ReadDsn(Head(s, driver) + place) == Some(Reading(driver, User(s), Password(s), place))
  {
    QuoteHasNoDelimiter(User(s));
    QuoteHasNoDelimiter(Password(s));
    CutsComeBack(driver, Quote(User(s)), Quote(Password(s)), place);
    QuoteRoundTrip(User(s));
    QuoteRoundTrip(Password(s));
  }

  /**
   Some DSN always comes out.  DATABASE_URL wins unchanged; a missing password with a default
   yields the default; otherwise both DSNs carry exactly the configured user and password.
   */
  lemma WhichDsn(s: Settings, default: Option<string>)
    ensures GetDatabaseUrl(s, default).Some? && GetSyncDatabaseUrl(s, default).Some?
    ensures !Blank(s.databaseUrl) ==> GetDatabaseUrl(s, default) == s.databaseUrl
    ensures Blank(s.databaseUrl) && !IsComposed(s, default) ==> GetDatabaseUrl(s, default) == default
    ensures IsComposed(s, default) ==>
              && ReadDsn(GetDatabaseUrl(s, default).value)
                 == Some(Reading(ASYNC_DRIVER, User(s), Password(s),
                                 Place(Host(s), Port(s), Name(s), SslSuffix(s, "ssl"))))
              && ReadDsn(GetSyncDatabaseUrl(s, default).value)
                 == Some(Reading(SYNC_DRIVER, User(s), Password(s),
                                 Place(Host(s), Port(s), Name(s), SslSuffix(s, "sslmode"))))
  {
    CredentialsComeBack(s, ASYNC_DRIVER, Place(Host(s), Port(s), Name(s), SslSuffix(s, "ssl")));
    CredentialsComeBack(s, SYNC_DRIVER, Place(Host(s), Port(s), Name(s), SslSuffix(s, "sslmode")));
  }

  /** A text that str.strip leaves as it is and that is not empty. */
  predicate Trimmed(text: string) {
    text != "" && !Space(text[0]) && !Space(text[|text| - 1])
  }

  /** A setting counts without the space around it, and one of nothing but space, or none, gives its default. */
  lemma {:induction false} SettingIsTrimmed(before: string, core: string, after: string, fallback: string)
    requires Trimmed(core) && forall c :: c in before || c in after ==> Space(c)
    ensures Env(Some(before + core + after), fallback) == core
    ensures Env(Some(before), fallback) == fallback && Env(None, fallback) == fallback
    decreases |before| + |after|
  {
    SpaceIsBlank(before);
    var text := before + core + after;
    if before != "" {
      assert text[0] == before[0] && text[1..] == before[1..] + core + after;
      SettingIsTrimmed(before[1..], core, after, fallback);
    } else if after != "" {
      var shorter := after[..|after| - 1];
      assert text[0] == core[0] && text[|text| - 1] == after[|after| - 1] && text[..|text| - 1] == core + shorter;
      assert before + core + shorter == core + shorter;
      SettingIsTrimmed(before, core, shorter, fallback);
    } else {
      assert text == core;
    }
  }

  lemma {:induction false} SpaceIsBlank(text: string)
    requires forall c :: c in text ==> Space(c)
    ensures Strip(text) == ""
  {
    if text != "" { SpaceIsBlank(text[1..]); }
  }

  /** What a DSN says behind "://", up to its parameters. */
  function Address(user: string, secret: string, host: string, port: string, name: string): string {
    user + ":" + secret + "@" + host + ":" + port + "/" + name
  }

  lemma ComposedFrom(s: Settings, default: Option<string>)
    requires Blank(s.databaseUrl) && !Blank(s.password)
    ensures var address := Address(Quote(User(s)), Quote(Password(s)), Host(s), Port(s), Name(s));
            && GetDatabaseUrl(s, default) == Some("postgresql+asyncpg://" + address + SslSuffix(s, "ssl"))
            && GetSyncDatabaseUrl(s, default) == Some("postgresql+psycopg2://" + address + SslSuffix(s, "sslmode"))
  {
    var user, secret := Quote(User(s)), Quote(Password(s));
    HeadAndPlace("postgresql+asyncpg", user, secret, Host(s), Port(s), Name(s), SslSuffix(s, "ssl"));
    HeadAndPlace("postgresql+psycopg2", user, secret, Host(s), Port(s), Name(s), SslSuffix(s, "sslmode"));
    assert "postgresql+asyncpg" + "://" == "postgresql+asyncpg://";
    assert "postgresql+psycopg2" + "://" == "postgresql+psycopg2://";
  }

  lemma HeadAndPlace(
      driver: string, user: string, secret: string, host: string, port: string, name: string, suffix: string)
    ensures driver + "://" + user + ":" + secret + "@" + Place(host, port, name, suffix)
         == driver + "://" + Address(user, secret, host, port, name) + suffix
  {
  }

  lemma TrimmedIsKept(text: string, fallback: string)
    requires Trimmed(text)
    ensures Env(Some(text), fallback) == text
  {
  }

  lemma SuffixSpelledOut(s: Settings, param: string)
    ensures s.sslMode.None? || s.sslMode == Some("disable") ==> SslSuffix(s, param) == ""
    ensures s.sslMode.Some? && Trimmed(s.sslMode.value) && s.sslMode.value != "disable" ==>
              SslSuffix(s, param) == "?" + param + "=" + s.sslMode.value
  {
  }

  /** Both DSNs spelled out, from settings without space around them. */
  lemma ComposedDsnsSpelledOut(
      user: string, password: string, host: string, port: string, name: string, mode: string, default: Option<string>)
    requires Trimmed(user) && Trimmed(password) && Trimmed(host) && Trimmed(port) && Trimmed(name) && Trimmed(mode)
    ensures var s := Settings(None, Some(password), Some(user), Some(host), Some(port), Some(name), Some(mode));
            var address := Address(Quote(user), Quote(password), host, port, name);
            && GetDatabaseUrl(s, default)
               == Some("postgresql+asyncpg://" + address + if mode == "disable" then "" else "?" + "ssl" + "=" + mode)
            && GetSyncDatabaseUrl(s, default)
               == Some("postgresql+psycopg2://" + address
                       + if mode == "disable" then "" else "?" + "sslmode" + "=" + mode)
  {
    var s := Settings(None, Some(password), Some(user), Some(host), Some(port), Some(name), Some(mode));
    ComposedFrom(s, default);
    TrimmedIsKept(user, "cg");
    TrimmedIsKept(host, "localhost");
    TrimmedIsKept(port, "5432");
    TrimmedIsKept(name, "cg_scf");
    SuffixSpelledOut(s, "ssl");
    SuffixSpelledOut(s, "sslmode");
  }

  /** And from nothing but a password. */
  lemma DefaultDsnsSpelledOut(password: string, default: Option<string>)
    requires Trimmed(password)
    ensures var s := Settings(None, Some(password), None, None, None, None, None);
            var address := Address("cg", Quote(password), "localhost", "5432", "cg_scf");
            && GetDatabaseUrl(s, default) == Some("postgresql+asyncpg://" + address)
            && GetSyncDatabaseUrl(s, default) == Some("postgresql+psycopg2://" + address)
  {
    var s := Settings(None, Some(password), None, None, None, None, None);
    var address := Address("cg", Quote(password), "localhost", "5432", "cg_scf");
    ComposedFrom(s, default);
    SuffixSpelledOut(s, "ssl");
    SuffixSpelledOut(s, "sslmode");
    CgIsPlain();
    assert "postgresql+asyncpg://" + address + "" == "postgresql+asyncpg://" + address;
    assert "postgresql+psycopg2://" + address + "" == "postgresql+psycopg2://" + address;
  }

  lemma CgIsPlain()
    ensures Quote("cg") == "cg"
  {
    assert Utf8("cg") == ['c' as int, 'g' as int];
  }

  // ---------------------------------------------------------------------------
  // How replacement acts on a concatenation
  // ---------------------------------------------------------------------------

  lemma NoStraddle(x: string, y: string, old_: string)
    requires 0 < |x| < |old_| && y != "" && y[0] !in old_[1..]
    ensures !(old_ <= x + y)
  {
    assert old_[1..][|x| - 1] == old_[|x|];
    assert (x + y)[|x|] == y[0] != old_[|x|];
  }

  /** No match can straddle a boundary at which the pattern cannot continue. */
  lemma {:induction false} ReplaceSplits(x: string, y: string, old_: string, new_: string)
    requires old_ != "" && (y == "" || y[0] !in old_[1..])
    ensures Replace(x + y, old_, new_) == Replace(x, old_, new_) + Replace(y, old_, new_)
    decreases |x|
  {
    var text := x + y;
    if x == "" {
      assert text == y;
    } else {
      if old_ <= x {
        assert old_ <= text && text[|old_|..] == x[|old_|..] + y;
        ReplaceSplits(x[|old_|..], y, old_, new_);
      } else {
        assert !(old_ <= text) by {
          if |x| >= |old_| { assert text[..|old_|] == x[..|old_|]; }
          else if y != "" { NoStraddle(x, y, old_); }
        }
        assert text[1..] == x[1..] + y;
        ReplaceSplits(x[1..], y, old_, new_);
      }
    }
  }

  lemma {:induction false} ReplaceSkips(x: string, y: string, old_: string, new_: string)
    requires old_ != "" && old_[0] !in x
    ensures Replace(x + y, old_, new_) == x + Replace(y, old_, new_)
    decreases |x|
  {
    if x == "" {
      assert x + y == y;
    } else {
      assert (x + y)[0] == x[0] != old_[0] && (x + y)[1..] == x[1..] + y;
      ReplaceSkips(x[1..], y, old_, new_);
    }
  }

  lemma ReplaceKeepsFirst(text: string, old_: string, new_: string)
    requires text != "" && old_ != "" && new_ != "" && old_[0] == new_[0]
    ensures Replace(text, old_, new_) != "" && Replace(text, old_, new_)[0] == text[0]
  {
  }

  lemma {:induction false} PrefixWasThere(text: string, prefix: string, old_: string, new_: string)
    requires old_ != "" && new_ != "" && old_[0] == new_[0] && old_[0] !in prefix
    requires prefix <= Replace(text, old_, new_)
    ensures prefix <= text
    decreases |prefix|
  {
    if prefix != "" && |text| >= |old_| {
      assert Replace(text, old_, new_)[0] == prefix[0];
      ReplaceKeepsFirst(text, old_, new_);
      assert Replace(text, old_, new_)[1..] == Replace(text[1..], old_, new_);
      PrefixWasThere(text[1..], prefix[1..], old_, new_);
    }
  }

  lemma {:induction false} AbsentIsKept(text: string, old_: string, new_: string)
    requires old_ != "" && !Contains(text, old_)
    ensures Replace(text, old_, new_) == text
    decreases |text|
  {
    if |text| >= |old_| {
      AbsentIsKept(text[1..], old_, new_);
    }
  }

  /** Replacing an occurrence changes a character where the two texts still line up. */
  lemma {:induction false} PresentDiffers(text: string, old_: string, new_: string, d: nat) returns (k: nat)
    requires d < |old_| && d < |new_| && old_[..d] == new_[..d] && old_[d] != new_[d]
    requires Contains(text, old_)
    ensures k < |text| && k < |Replace(text, old_, new_)| && Replace(text, old_, new_)[..k] == text[..k]
    ensures text[k] == old_[d] && Replace(text, old_, new_)[k] == new_[d]
    decreases |text|
  {
    if text[..|old_|] == old_ {
      k := d;
      assert text[..d] == text[..|old_|][..d];
      assert text[d] == text[..|old_|][d];
    } else {
      var j := PresentDiffers(text[1..], old_, new_, d);
      k := j + 1;
      assert text[..k] == [text[0]] + text[1..][..j];
      assert Replace(text, old_, new_)[..k] == [text[0]] + Replace(text[1..], old_, new_)[..j];
    }
  }

  // ---------------------------------------------------------------------------
  // The rewrite
  // ---------------------------------------------------------------------------

  /** Nothing for the rewrite to find. */
  predicate Untouched(text: string) {
    !Contains(text, ASYNCPG) && !Contains(text, SSL_REQUIRE)
  }

  predicate DifferInside(x: string, y: string) {
    exists k :: 0 <= k < |x| && k < |y| && x[k] != y[k]
  }

  /** After one change in place, a second one at another character leaves a change in place. */
  lemma SecondChangeStillDiffers(text: string, first: string, j: nat)
    requires j < |text| && j < |first| && first[..j] == text[..j] && first[j] == 'p' && text[j] == 'a'
    requires Contains(first, SSL_REQUIRE)
    ensures DifferInside(Replace(first, SSL_REQUIRE, SSLMODE_REQUIRE), text)
  {
    var k := PresentDiffers(first, SSL_REQUIRE, SSLMODE_REQUIRE, 4);
    if k < j {
      assert first[k] == first[..j][k] == text[..j][k];
    } else {
      var second := Replace(first, SSL_REQUIRE, SSLMODE_REQUIRE);
      assert first[j] == first[..k][j] == second[..k][j];
    }
  }

  /** The rewrite leaves a text alone, or changes one of its characters in place. */
  lemma ToSyncKeepsOrDiffers(text: string)
    ensures if Untouched(text) then ToSync(text) == text else DifferInside(ToSync(text), text)
  {
    var first := Replace(text, ASYNCPG, PSYCOPG2);
    if Contains(text, ASYNCPG) {
      var j := PresentDiffers(text, ASYNCPG, PSYCOPG2, 1);
      if Contains(first, SSL_REQUIRE) {
        SecondChangeStillDiffers(text, first, j);
      } else {
        AbsentIsKept(first, SSL_REQUIRE, SSLMODE_REQUIRE);
      }
    } else {
      AbsentIsKept(text, ASYNCPG, PSYCOPG2);
      if Contains(text, SSL_REQUIRE) {
        var _ := PresentDiffers(text, SSL_REQUIRE, SSLMODE_REQUIRE, 4);
      } else {
        AbsentIsKept(text, SSL_REQUIRE, SSLMODE_REQUIRE);
      }
    }
  }

  lemma ToSyncSplits(x: string, y: string)
    requires y == "" || y[0] in ":/?@+"
    ensures ToSync(x + y) == ToSync(x) + ToSync(y)
  {
    ReplaceSplits(x, y, ASYNCPG, PSYCOPG2);
    if y != "" { ReplaceKeepsFirst(y, ASYNCPG, PSYCOPG2); }
    ReplaceSplits(Replace(x, ASYNCPG, PSYCOPG2), Replace(y, ASYNCPG, PSYCOPG2), SSL_REQUIRE, SSLMODE_REQUIRE);
  }

  lemma ToSyncSkips(x: string, y: string)
    requires '+' !in x && '?' !in x
    ensures ToSync(x + y) == x + ToSync(y)
  {
    ReplaceSkips(x, y, ASYNCPG, PSYCOPG2);
    ReplaceSkips(x, Replace(y, ASYNCPG, PSYCOPG2), SSL_REQUIRE, SSLMODE_REQUIRE);
  }

  lemma DriverNameIsRewritten(rest: string)
    ensures ToSync(ASYNCPG + rest) == PSYCOPG2 + ToSync(rest)
  {
    var tail := ASYNCPG + rest;
    assert tail[..8] == ASYNCPG && tail[8..] == rest;
    ReplaceSkips(PSYCOPG2, Replace(rest, ASYNCPG, PSYCOPG2), SSL_REQUIRE, SSLMODE_REQUIRE);
  }

  lemma Regroup(a: string, b: string, c: string)
    ensures (a + b) + c == a + (b + c)
  {
  }

  lemma DriverIsRewritten(rest: string)
    ensures ToSync(ASYNC_DRIVER + rest) == SYNC_DRIVER + ToSync(rest)
  {
    assert ASYNC_DRIVER == "postgresql" + ASYNCPG && SYNC_DRIVER == "postgresql" + PSYCOPG2;
    Regroup("postgresql", ASYNCPG, rest);
    ToSyncSkips("postgresql", ASYNCPG + rest);
    DriverNameIsRewritten(rest);
    Regroup("postgresql", PSYCOPG2, ToSync(rest));
  }

  lemma CredentialsApart(driver: string, user: string, secret: string, place: string)
    ensures driver + "://" + user + ":" + secret + "@" + place
         == driver + (("://" + user + ":" + secret + "@") + place)
  {
  }

  lemma PlainCredentialsAreKept(user: string, secret: string, place: string)
    requires '+' !in user && '?' !in user && '+' !in secret && '?' !in secret
    ensures ToSync(ASYNC_DRIVER + "://" + user + ":" + secret + "@" + place)
            == SYNC_DRIVER + "://" + user + ":" + secret + "@" + ToSync(place)
  {
    var credentials := "://" + user + ":" + secret + "@";
    CredentialsApart(ASYNC_DRIVER, user, secret, place);
    DriverIsRewritten(credentials + place);
    ToSyncSkips(credentials, place);
    CredentialsApart(SYNC_DRIVER, user, secret, ToSync(place));
  }

  /** The rewrite changes each occurrence of the driver name and the SSL parameter, and leaves the text between. */
  lemma RewriteChangesEachOccurrence(before: string, rest: string)
    requires '+' !in before && '?' !in before
    ensures ToSync(before + "+asyncpg" + rest) == before + "+psycopg2" + ToSync(rest)
    ensures ToSync(before + "?ssl=require" + rest) == before + "?sslmode=require" + ToSync(rest)
    ensures ToSync(before) == before
  {
    assert before + "+asyncpg" + rest == before + (ASYNCPG + rest);
    assert before + "?ssl=require" + rest == before + ("?ssl=require" + rest);
    ToSyncSkips(before, ASYNCPG + rest);
    DriverNameIsRewritten(rest);
    ToSyncSkips(before, "?ssl=require" + rest);
    RequireIsRewritten(rest);
    ToSyncSkips(before, "");
    assert before + "" == before;
  }

  lemma HeadIsRewritten(s: Settings, place: string)
    ensures ToSync(Head(s, ASYNC_DRIVER) + place) == Head(s, SYNC_DRIVER) + ToSync(place)
  {
    QuoteHasNoDelimiter(User(s));
    QuoteHasNoDelimiter(Password(s));
    PlainCredentialsAreKept(Quote(User(s)), Quote(Password(s)), place);
  }

  lemma PlaceIsRewritten(host: string, port: string, name: string, suffix: string)
    requires suffix == "" || suffix[0] == '?'
    ensures ToSync(Place(host, port, name, suffix)) == Place(ToSync(host), ToSync(port), ToSync(name), ToSync(suffix))
  {
    ToSyncSplits(host, ":" + (port + ("/" + (name + suffix))));
    ToSyncSkips(":", port + ("/" + (name + suffix)));
    ToSyncSplits(port, "/" + (name + suffix));
    ToSyncSkips("/", name + suffix);
    ToSyncSplits(name, suffix);
  }

  /** The modes whose suffix the rewrite turns into the one the sync DSN composes. */
  predicate ModeAgrees(mode: string) {
    mode == "" || mode == "disable" || ("require" <= mode && Untouched(mode[7..]))
  }

  lemma RequireIsRewritten(rest: string)
    ensures ToSync("?ssl=require" + rest) == "?sslmode=require" + ToSync(rest)
  {
    ReplaceSkips(SSL_REQUIRE, rest, ASYNCPG, PSYCOPG2);
    var text := SSL_REQUIRE + Replace(rest, ASYNCPG, PSYCOPG2);
    assert text[..12] == SSL_REQUIRE && text[12..] == Replace(rest, ASYNCPG, PSYCOPG2);
  }

  lemma OtherSuffixIsKept(rest: string)
    requires !("require" <= rest)
    ensures Replace("?ssl=" + rest, SSL_REQUIRE, SSLMODE_REQUIRE)
         == "?ssl=" + Replace(rest, SSL_REQUIRE, SSLMODE_REQUIRE)
  {
    var text := "?ssl=" + rest;
    assert SSL_REQUIRE[5..] == "require";
    assert |text| >= 12 ==> text[..12][5..] == rest[..7];
    assert text[1..] == "ssl=" + rest;
    ReplaceSkips("ssl=", rest, SSL_REQUIRE, SSLMODE_REQUIRE);
  }

  lemma SuffixIsRewritten(mode: string)
    ensures if "require" <= mode then ToSync("?ssl=" + mode) == "?sslmode=require" + ToSync(mode[7..])
            else ToSync("?ssl=" + mode) == "?ssl=" + ToSync(mode)
  {
    if "require" <= mode {
      assert "?ssl=" + mode == "?ssl=require" + mode[7..];
      RequireIsRewritten(mode[7..]);
    } else {
      var rewritten := Replace(mode, ASYNCPG, PSYCOPG2);
      ReplaceSkips("?ssl=", mode, ASYNCPG, PSYCOPG2);
      assert !("require" <= rewritten) by {
        if "require" <= rewritten { PrefixWasThere(mode, "require", ASYNCPG, PSYCOPG2); }
      }
      OtherSuffixIsKept(rewritten);
    }
  }

  lemma SuffixesAgreeExactly(s: Settings)
    ensures if ModeAgrees(Mode(s)) then ToSync(SslSuffix(s, "ssl")) == SslSuffix(s, "sslmode")
            else DifferInside(ToSync(SslSuffix(s, "ssl")), SslSuffix(s, "sslmode"))
  {
    var mode := Mode(s);
    if mode != "" && mode != "disable" {
      var sync := SslSuffix(s, "sslmode");
      assert SslSuffix(s, "ssl") == "?ssl=" + mode && sync == "?sslmode=" + mode;
      SuffixIsRewritten(mode);
      if "require" <= mode {
        ToSyncKeepsOrDiffers(mode[7..]);
        assert sync == "?sslmode=require" + mode[7..];
        PartsDecide("?sslmode=require", ToSync(mode[7..]), "?sslmode=require", mode[7..]);
        DifferenceIsReal(ToSync(mode[7..]), mode[7..]);
      } else {
        assert ToSync(SslSuffix(s, "ssl"))[4] == '=' && sync[4] == 'm';
      }
    }
  }

  /** Two concatenations of parts that line up are equal only if both pairs of parts are. */
  lemma PartsDecide(x: string, xs: string, y: string, ys: string)
    requires x == y || DifferInside(x, y)
    requires xs == ys || DifferInside(xs, ys)
    ensures x + xs == y + ys <==> x == y && xs == ys
    ensures x + xs == y + ys || DifferInside(x + xs, y + ys)
  {
    if x != y {
      var k :| 0 <= k < |x| && k < |y| && x[k] != y[k];
      assert (x + xs)[k] == x[k] && (y + ys)[k] == y[k];
    } else if xs != ys {
      var k :| 0 <= k < |xs| && k < |ys| && xs[k] != ys[k];
      assert (x + xs)[|x| + k] == xs[k] && (y + ys)[|x| + k] == ys[k];
    }
  }

  /** Two places whose parts are kept or changed in place are equal only if every part was kept. */
  lemma PlacesAgreeExactly(host: string, port: string, name: string, suffix: string, sync: string)
    requires ToSync(suffix) == sync || DifferInside(ToSync(suffix), sync)
    ensures Place(ToSync(host), ToSync(port), ToSync(name), ToSync(suffix)) == Place(host, port, name, sync)
            <==> Untouched(host) && Untouched(port) && Untouched(name) && ToSync(suffix) == sync
  {
    ToSyncKeepsOrDiffers(name);
    PartsDecide(ToSync(name), ToSync(suffix), name, sync);
    var nameA, nameB := ToSync(name) + ToSync(suffix), name + sync;
    PartsDecide("/", nameA, "/", nameB);
    ToSyncKeepsOrDiffers(port);
    PartsDecide(ToSync(port), "/" + nameA, port, "/" + nameB);
    var portA, portB := ToSync(port) + ("/" + nameA), port + ("/" + nameB);
    PartsDecide(":", portA, ":", portB);
    ToSyncKeepsOrDiffers(host);
    PartsDecide(ToSync(host), ":" + portA, host, ":" + portB);
    DifferenceIsReal(ToSync(host), host);
    DifferenceIsReal(ToSync(port), port);
    DifferenceIsReal(ToSync(name), name);
  }

  lemma DifferenceIsReal(x: string, y: string)
    ensures DifferInside(x, y) ==> x != y
  {
  }

  /**
   The sync DSN is the rewritten async DSN whenever the DSN was given whole or is the default; for
   a composed one it is exactly when host, port and name hold nothing the rewrite would find, and
   the mode is empty, "disable", or "require" with nothing the rewrite would find after it.
   */
  lemma SyncIsRewrittenAsyncExactlyWhen(s: Settings, default: Option<string>)
    ensures GetSyncDatabaseUrl(s, default) == Some(ToSync(GetDatabaseUrl(s, default).value)) <==>
            !IsComposed(s, default)
            || (Untouched(Host(s)) && Untouched(Port(s)) && Untouched(Name(s)) && ModeAgrees(Mode(s)))
  {
    WhichDsn(s, default);
    if IsComposed(s, default) {
      var suffix, sync := SslSuffix(s, "ssl"), SslSuffix(s, "sslmode");
      HeadIsRewritten(s, Place(Host(s), Port(s), Name(s), suffix));
      PlaceIsRewritten(Host(s), Port(s), Name(s), suffix);
      SuffixesAgreeExactly(s);
      PlacesAgreeExactly(Host(s), Port(s), Name(s), suffix, sync);
      SameHead(Head(s, SYNC_DRIVER), Place(ToSync(Host(s)), ToSync(Port(s)), ToSync(Name(s)), ToSync(suffix)),
               Place(Host(s), Port(s), Name(s), sync));
    }
  }

  lemma SameHead(head: string, x: string, y: string)
    ensures head + x == head + y <==> x == y
  {
    assert (head + x)[|head|..] == x && (head + y)[|head|..] == y;
  }
}
