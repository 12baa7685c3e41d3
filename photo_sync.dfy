/**
 * The decisions of Vv1.DashSync/PhotoSyncService.cs: whether the stored
 * credentials can be reused, which photos of the listing fall in the
 * morning window, and under which file name each one is downloaded.
 *
 * What the service gets from outside (the stored credentials, the login
 * call, the photo listing, the clock, `DateTime.TryParse`, the JWT reader and
 * `Path.GetExtension`) is passed in as oracle results and oracle functions.
 * An exception raised by one of them ends the sync (the catch of SyncPhotos),
 * which the model writes as `Threw`.
 */
module PhotoSync {
  import opened Wrappers
  import Decimal

  /** .NET measures time in ticks of 100 nanoseconds. */
  const TicksPerSecond: int := 10_000_000
  const SecondsPerDay: int := 86400
  const TicksPerDay: int := SecondsPerDay * TicksPerSecond

  /** `new TimeSpan(hours, minutes, seconds)`, in ticks. */
  function TimeSpan(hours: int, minutes: int, seconds: int): int {
    ((hours * 60 + minutes) * 60 + seconds) * TicksPerSecond
  }

  const DefaultStartTimeEastern: int := TimeSpan(8, 0, 0)
  const DefaultEndTimeEastern: int := TimeSpan(12, 0, 0)

  /** A result, or the exception that ended the call. */
  datatype Fallible<T> = Returned(value: T) | Threw

  /** A date and time as `DateTime.TryParse` yields it; the time of day is in ticks. */
  datatype DateTime = DateTime(year: int, month: int, day: int, timeOfDay: int) {
    predicate Valid() {
      1 <= year <= 9999 && 1 <= month <= 12 && 1 <= day <= 31 && 0 <= timeOfDay < TicksPerDay
    }
  }

  type ParsedDate = d: DateTime | d.Valid() witness DateTime(1, 1, 1, 0)

  /** An oracle for one overload of `DateTime.TryParse`: `None` when it returns false. */
  type DateParser = string -> Option<ParsedDate>

  /** The fields of a listed photo that the service reads; `None` is null. */
  datatype Photo = Photo(photoId: Option<string>, photoDateUtc: Option<string>, photoUrl: Option<string>)

  /** `TryParse` of a null string returns false. */
  function TryParse(parse: DateParser, s: Option<string>): Option<ParsedDate> {
    if s.None? then None else parse(s.value)
  }

  // ---------------------------------------------------------------------------
  // FilterPhotosByTime

  /**
   * The time of day of `new DateTime(today, span.Hours, span.Minutes,
   * span.Seconds)`: the span's whole seconds within one day.
   */
  function TimeOfDayOf(span: int): (t: int)
    requires span >= 0
    ensures 0 <= t < TicksPerDay && t % TicksPerSecond == 0
    ensures span < TicksPerDay ==> t <= span < t + TicksPerSecond
    ensures (span - t) % TicksPerDay < TicksPerSecond
  {
    var seconds := span / TicksPerSecond;
    var days := seconds / SecondsPerDay;
    assert span == seconds * TicksPerSecond + span % TicksPerSecond;
    assert seconds == days * SecondsPerDay + seconds % SecondsPerDay;
    assert span - (seconds % SecondsPerDay) * TicksPerSecond == days * TicksPerDay + span % TicksPerSecond;
    (seconds % SecondsPerDay) * TicksPerSecond
  }

  /** A whole number of seconds within a day is its own time of day. */
  lemma TimeOfDayOfWholeSeconds(seconds: int)
    requires 0 <= seconds < SecondsPerDay
    ensures TimeOfDayOf(seconds * TicksPerSecond) == seconds * TicksPerSecond
  {
    assert seconds * TicksPerSecond / TicksPerSecond == seconds;
  }

  /** A photo is kept when its date parses and its time of day lies in [lo, hi]. */
  predicate Keeps(parse: DateParser, lo: int, hi: int, p: Photo) {
    var d := TryParse(parse, p.photoDateUtc);
    d.Some? && lo <= d.value.timeOfDay <= hi
  }

  /** The photos that `Keeps` selects, in their order in the listing. */
  function Filtered(parse: DateParser, lo: int, hi: int, photos: seq<Photo>): seq<Photo> {
    if photos == [] then []
    else
      var rest := Filtered(parse, lo, hi, photos[..|photos| - 1]);
      var last := photos[|photos| - 1];
      if Keeps(parse, lo, hi, last) then rest + [last] else rest
  }

  /**
   * `FilterPhotosByTime`: walks the listing once and appends every photo
   * whose parsed time of day lies in the window, both bounds included.
   * `parseAsLocal` is `TryParse` with `AssumeUniversal`, which gives local time.
   */
  method FilterPhotosByTime(photos: seq<Photo>, startTime: int, endTime: int, parseAsLocal: DateParser)
    returns (filteredPhotos: seq<Photo>)
    requires startTime >= 0 && endTime >= 0
    ensures filteredPhotos == Filtered(parseAsLocal, TimeOfDayOf(startTime), TimeOfDayOf(endTime), photos)
  {
    var startTimeOfDay := TimeOfDayOf(startTime);
    var endTimeOfDay := TimeOfDayOf(endTime);
    filteredPhotos := [];
    for i := 0 to |photos|
      invariant filteredPhotos == Filtered(parseAsLocal, startTimeOfDay, endTimeOfDay, photos[..i])
    {
      var photo := photos[i];
      assert photos[..i + 1][..i] == photos[..i];
      var parsed := TryParse(parseAsLocal, photo.photoDateUtc);
      if parsed.Some? {
        if parsed.value.timeOfDay >= startTimeOfDay && parsed.value.timeOfDay <= endTimeOfDay {
          filteredPhotos := filteredPhotos + [photo];
        }
      }
    }
    assert photos[..|photos|] == photos;
  }

  /** A photo is in the result exactly when it is in the listing and in the window. */
  lemma {:induction false} FilteredMembers(parse: DateParser, lo: int, hi: int, photos: seq<Photo>, p: Photo)
    ensures p in Filtered(parse, lo, hi, photos) <==> p in photos && Keeps(parse, lo, hi, p)
  {
    if photos != [] {
      var init := photos[..|photos| - 1];
      FilteredMembers(parse, lo, hi, init, p);
      assert photos == init + [photos[|photos| - 1]];
    }
  }

  /** A photo whose date does not parse is never kept, whatever the window. */
  lemma UnparsableDropped(parse: DateParser, lo: int, hi: int, photos: seq<Photo>, p: Photo)
    requires TryParse(parse, p.photoDateUtc).None?
    ensures p !in Filtered(parse, lo, hi, photos)
  {
    FilteredMembers(parse, lo, hi, photos, p);
  }

  /** Each photo occurs in the result as often as in the listing if kept, else never. */
  lemma {:induction false} FilteredCounts(parse: DateParser, lo: int, hi: int, photos: seq<Photo>, p: Photo)
    ensures multiset(Filtered(parse, lo, hi, photos))[p] ==
            if Keeps(parse, lo, hi, p) then multiset(photos)[p] else 0
  {
    if photos != [] {
      var init := photos[..|photos| - 1];
      FilteredCounts(parse, lo, hi, init, p);
      assert photos == init + [photos[|photos| - 1]];
    }
  }

  /** `a` is `b` with some elements removed and the rest in the same order. */
  predicate IsSubsequence<T(==)>(a: seq<T>, b: seq<T>) {
    if a == [] then true
    else if b == [] then false
    else
      (a[|a| - 1] == b[|b| - 1] && IsSubsequence(a[..|a| - 1], b[..|b| - 1]))
      || IsSubsequence(a, b[..|b| - 1])
  }

  /** The filter keeps the listing's order. */
  lemma {:induction false} FilteredIsSubsequence(parse: DateParser, lo: int, hi: int, photos: seq<Photo>)
    ensures IsSubsequence(Filtered(parse, lo, hi, photos), photos)
  {
    if photos != [] {
      var init := photos[..|photos| - 1];
      FilteredIsSubsequence(parse, lo, hi, init);
      var rest := Filtered(parse, lo, hi, init);
      var last := photos[|photos| - 1];
      // A dropped last photo leaves `rest`, already a subsequence of `init`.
      if Keeps(parse, lo, hi, last) {
        assert (rest + [last])[..|rest|] == rest;
      }
    }
  }

  // ---------------------------------------------------------------------------
  // IsTokenExpired

  /** The stored result of a login; only its access token is read here. */
  datatype AuthenticationResult = AuthenticationResult(accessToken: Option<string>)

  /**
   * An oracle for `JwtSecurityTokenHandler.ReadToken(..) as JwtSecurityToken`:
   * a token not in compact JWT form makes `ReadToken` throw, and a JWT carries
   * an optional `exp` claim in seconds since the Unix epoch (section 4.1.4 of
   * RFC 7519). `NotJwt` stands for the null the cast would give for another
   * kind of token; this handler always returns a JWT or throws, so the case
   * is kept for generality only.
   */
  datatype TokenRead = Unreadable | NotJwt | Jwt(expiration: Option<int>)

  /** The range of `DateTimeOffset.FromUnixTimeSeconds`, 0001-01-01 to 9999-12-31 23:59:59. */
  const MinUnixSeconds: int := -62135596800
  const MaxUnixSeconds: int := 253402300799

  /** `FromUnixTimeSeconds` accepts these seconds; it throws for any other. */
  predicate Representable(seconds: int) {
    MinUnixSeconds <= seconds <= MaxUnixSeconds
  }

  /**
   * `IsTokenExpired`: a token that is absent, not a JWT, or without `exp`
   * counts as expired; an unreadable token or an `exp` outside the range of
   * `DateTimeOffset` throws; otherwise the token is expired once `utcNowTicks`
   * (ticks since the Unix epoch) reaches the `exp` second.
   */
  function IsTokenExpired(auth: AuthenticationResult, readToken: string -> TokenRead, utcNowTicks: int): (r: Fallible<bool>)
    ensures r == Threw <==>
              && auth.accessToken.Some?
              && (|| readToken(auth.accessToken.value).Unreadable?
                  || (&& readToken(auth.accessToken.value).Jwt?
                      && readToken(auth.accessToken.value).expiration.Some?
                      && !Representable(readToken(auth.accessToken.value).expiration.value)))
    ensures r == Returned(false) <==>
              && auth.accessToken.Some?
              && readToken(auth.accessToken.value).Jwt?
              && readToken(auth.accessToken.value).expiration.Some?
              && Representable(readToken(auth.accessToken.value).expiration.value)
              && utcNowTicks < readToken(auth.accessToken.value).expiration.value * TicksPerSecond
  {
    if auth.accessToken.None? then Returned(true)
    else
      match readToken(auth.accessToken.value)
      case Unreadable => Threw
      case NotJwt => Returned(true)
      case Jwt(exp) =>
        if exp.None? then Returned(true)
        else if !Representable(exp.value) then Threw
        else Returned(utcNowTicks >= exp.value * TicksPerSecond)
  }

  /**
   * The comparison in ticks agrees with a comparison of whole seconds: a token
   * is expired from the first tick of its `exp` second on. An `exp` outside
   * the range of `DateTimeOffset` throws instead.
   */
  lemma ExpiredIffSecondReached(auth: AuthenticationResult, readToken: string -> TokenRead, utcNowTicks: int, exp: int)
    requires auth.accessToken.Some? && readToken(auth.accessToken.value) == Jwt(Some(exp))
    ensures IsTokenExpired(auth, readToken, utcNowTicks) ==
            if Representable(exp) then Returned(utcNowTicks / TicksPerSecond >= exp) else Threw
  {
    var q := utcNowTicks / TicksPerSecond;
    assert utcNowTicks == q * TicksPerSecond + utcNowTicks % TicksPerSecond;
    if q >= exp {
      assert q * TicksPerSecond >= exp * TicksPerSecond;
    } else {
      assert (q + 1) * TicksPerSecond <= exp * TicksPerSecond;
    }
  }

  // ---------------------------------------------------------------------------
  // GetPhotos: one download per photo with a URL

  /** Three numerals joined by '-', the shape of a `yyyy-MM-dd` date. */
  function JoinDate(year: string, month: string, day: string): (s: string)
    requires |year| == 4 && |month| == 2 && |day| == 2
    ensures |s| == 10 && s[4] == '-' && s[7] == '-'
    ensures s[..4] == year && s[5..7] == month && s[8..] == day
  {
    var s := year + "-" + month + "-" + day;
    assert s[..4] == year && s[5..7] == month && s[8..] == day;
    s
  }

  /** Below 10000 a year takes four digits, below 100 a month or day two. */
  lemma DateFieldLengths(d: ParsedDate)
    ensures |Decimal.Padded(d.year, 4)| == 4
    ensures |Decimal.Padded(d.month, 2)| == 2 && |Decimal.Padded(d.day, 2)| == 2
  {
    assert Decimal.Pow10(2) == 100;
    assert Decimal.Pow10(4) == 10000;
    Decimal.PaddedLength(d.year, 4);
    Decimal.PaddedLength(d.month, 2);
    Decimal.PaddedLength(d.day, 2);
  }

  /** The extended calendar date `yyyy-MM-dd` of section 4.1.2.2 of ISO 8601:2004. */
  function FormatDate(d: ParsedDate): (s: string)
    ensures |s| == 10 && s[4] == '-' && s[7] == '-'
    ensures Decimal.AllDigits(s[..4]) && Decimal.AllDigits(s[5..7]) && Decimal.AllDigits(s[8..])
  {
    DateFieldLengths(d);
    JoinDate(Decimal.Padded(d.year, 4), Decimal.Padded(d.month, 2), Decimal.Padded(d.day, 2))
  }

  /** Reads a `yyyy-MM-dd` date back as (year, month, day). */
  function ParseDate(s: string): Option<(int, int, int)> {
    if |s| == 10 && s[4] == '-' && s[7] == '-'
       && Decimal.AllDigits(s[..4]) && Decimal.AllDigits(s[5..7]) && Decimal.AllDigits(s[8..])
    then Some((Decimal.ValueOf(s[..4]), Decimal.ValueOf(s[5..7]), Decimal.ValueOf(s[8..])))
    else None
  }

  /** The formatted date reads back as the date that was formatted. */
  lemma FormatDateRoundTrip(d: ParsedDate)
    ensures ParseDate(FormatDate(d)) == Some((d.year, d.month, d.day))
  {
    DateFieldLengths(d);
    Decimal.PaddedRoundTrip(d.year, 4);
    Decimal.PaddedRoundTrip(d.month, 2);
    Decimal.PaddedRoundTrip(d.day, 2);
  }

  /** `Path.GetExtension(photo.PhotoId) ?? ".jpg"`: only a null id gives the fallback. */
  function Extension(photoId: Option<string>, getExtension: string -> string): string {
    if photoId.None? then ".jpg" else getExtension(photoId.value)
  }

  /** `$"{photo.PhotoId}"`: a null id interpolates as the empty string. */
  function IdText(photoId: Option<string>): string {
    if photoId.None? then "" else photoId.value
  }

  /**
   * The file name of a photo: its date as `yyyy-MM-dd` followed by the
   * extension when the date parses, the bare photo id otherwise.
   */
  function FileName(p: Photo, parse: DateParser, getExtension: string -> string): (name: string)
    ensures TryParse(parse, p.photoDateUtc).Some? ==>
              var d := TryParse(parse, p.photoDateUtc).value;
              |name| >= 10 && ParseDate(name[..10]) == Some((d.year, d.month, d.day))
              && name[10..] == Extension(p.photoId, getExtension)
    ensures TryParse(parse, p.photoDateUtc).None? ==> name == IdText(p.photoId)
  {
    match TryParse(parse, p.photoDateUtc)
    case Some(d) =>
      FormatDateRoundTrip(d);
      var date := FormatDate(d);
      var name := date + Extension(p.photoId, getExtension);
      assert name[..10] == date;
      name
    case None => IdText(p.photoId)
  }

  datatype Download = Download(url: string, fileName: string)

  /** The body of the per-photo loop in `GetPhotos`: no download without a URL. */
  function PhotoDownload(p: Photo, parse: DateParser, getExtension: string -> string): (r: Option<Download>)
    ensures r.None? <==> p.photoUrl.None?
    ensures r.Some? ==> r.value == Download(p.photoUrl.value, FileName(p, parse, getExtension))
  {
    if p.photoUrl.None? then None
    else Some(Download(p.photoUrl.value, FileName(p, parse, getExtension)))
  }

  /** `GetPhotos`: the downloads of all photos, in listing order; one per photo with a URL. */
  function Downloads(photos: seq<Photo>, parse: DateParser, getExtension: string -> string): (r: seq<Download>)
    ensures |r| == WithUrl(photos)
  {
    if photos == [] then []
    else
      var d := PhotoDownload(photos[0], parse, getExtension);
      (if d.Some? then [d.value] else []) + Downloads(photos[1..], parse, getExtension)
  }

  /** Each download comes from a photo with a URL, and each such photo yields one. */
  lemma {:induction false} DownloadsFromPhotos(photos: seq<Photo>, parse: DateParser, getExtension: string -> string, dl: Download)
    ensures dl in Downloads(photos, parse, getExtension) <==>
            exists i :: 0 <= i < |photos| && PhotoDownload(photos[i], parse, getExtension) == Some(dl)
  {
    if photos != [] {
      DownloadsFromPhotos(photos[1..], parse, getExtension, dl);
      if exists i :: 0 <= i < |photos[1..]| && PhotoDownload(photos[1..][i], parse, getExtension) == Some(dl) {
        var i :| 0 <= i < |photos[1..]| && PhotoDownload(photos[1..][i], parse, getExtension) == Some(dl);
        assert PhotoDownload(photos[i + 1], parse, getExtension) == Some(dl);
      }
      if exists i :: 0 <= i < |photos| && PhotoDownload(photos[i], parse, getExtension) == Some(dl) {
        var i :| 0 <= i < |photos| && PhotoDownload(photos[i], parse, getExtension) == Some(dl);
        if i > 0 {
          assert PhotoDownload(photos[1..][i - 1], parse, getExtension) == Some(dl);
        }
      }
    }
  }

  /** How many photos of the listing yield the download `dl`. */
  function Yields(photos: seq<Photo>, parse: DateParser, getExtension: string -> string, dl: Download): nat {
    if photos == [] then 0
    else
      (if PhotoDownload(photos[0], parse, getExtension) == Some(dl) then 1 else 0)
      + Yields(photos[1..], parse, getExtension, dl)
  }

  /** Each download occurs exactly as often as photos of the listing yield it. */
  lemma {:induction false} DownloadsCounts(photos: seq<Photo>, parse: DateParser, getExtension: string -> string, dl: Download)
    ensures multiset(Downloads(photos, parse, getExtension))[dl] == Yields(photos, parse, getExtension, dl)
  {
    if photos != [] {
      DownloadsCounts(photos[1..], parse, getExtension, dl);
    }
  }

  /** The number of photos that have a URL. */
  function WithUrl(photos: seq<Photo>): nat {
    if photos == [] then 0 else (if photos[0].photoUrl.Some? then 1 else 0) + WithUrl(photos[1..])
  }

  // ---------------------------------------------------------------------------
  // SyncPhotos

  /** What the outside world answers during one sync. */
  datatype Env = Env(
    storedAuth: Fallible<Option<AuthenticationResult>>,           // LoadAuthenticationResult
    login: Fallible<Option<AuthenticationResult>>,                // Login
    readToken: string -> TokenRead,                               // the JWT reader
    utcNowTicks: int,                                             // DateTimeOffset.UtcNow
    photosList: string -> Fallible<Option<seq<Photo>>>,           // GetPhotosList(..)?.Response?.Photos
    parseAsLocal: DateParser,                                     // TryParse with AssumeUniversal
    parse: DateParser,                                            // TryParse without styles
    getExtension: string -> string)                               // Path.GetExtension

  /** Where a sync ended. */
  datatype SyncEnd = NoAuth | NoAccessToken | NoPhotos | Downloaded(downloads: seq<Download>) | Failed

  /**
   * loggedIn     whether `Login` was called
   * saved        the credentials written back to the auth file
   * listedWith   the access token the photo listing was requested with
   */
  datatype SyncRun = SyncRun(loggedIn: bool, saved: Option<AuthenticationResult>, listedWith: Option<string>, end: SyncEnd)

  /** The stored credentials need a fresh login: absent, or expired (which may throw). */
  function NeedsLogin(stored: Option<AuthenticationResult>, env: Env): Fallible<bool> {
    if stored.None? then Returned(true) else IsTokenExpired(stored.value, env.readToken, env.utcNowTicks)
  }

  /**
   * The credentials the sync goes on with: the stored ones when they are
   * present and unexpired, the login's result otherwise, or the exception
   * that ended the sync before that.
   */
  function AuthInForce(env: Env): Fallible<Option<AuthenticationResult>> {
    if env.storedAuth.Threw? then Threw
    else
      match NeedsLogin(env.storedAuth.value, env)
      case Threw => Threw
      case Returned(needsLogin) => if needsLogin then env.login else env.storedAuth
  }

  /** The sync after the credentials are settled: list, filter and download. */
  function ListAndDownload(env: Env, auth: Option<AuthenticationResult>, loggedIn: bool, saved: Option<AuthenticationResult>): SyncRun {
    if auth.None? then SyncRun(loggedIn, saved, None, NoAuth)
    else if auth.value.accessToken.None? then SyncRun(loggedIn, saved, None, NoAccessToken)
    else
      var token := auth.value.accessToken.value;
      match env.photosList(token)
      case Threw => SyncRun(loggedIn, saved, Some(token), Failed)
      case Returned(None) => SyncRun(loggedIn, saved, Some(token), NoPhotos)
      case Returned(Some(photos)) =>
        var kept := Filtered(env.parseAsLocal, TimeOfDayOf(DefaultStartTimeEastern), TimeOfDayOf(DefaultEndTimeEastern), photos);
        SyncRun(loggedIn, saved, Some(token), Downloaded(Downloads(kept, env.parse, env.getExtension)))
  }

  /**
   * `SyncPhotos`: reuse the stored credentials unless they are missing or
   * expired, in which case log in and save a non-null result; stop without
   * listing when there are no credentials or no access token, stop without
   * downloading when the listing has no photos, and download the photos taken
   * between 08:00:00 and 12:00:00 local time otherwise.
   */
  function SyncPhotos(env: Env): (r: SyncRun)
    ensures r.loggedIn <==> env.storedAuth.Returned? && NeedsLogin(env.storedAuth.value, env) == Returned(true)
    ensures r.saved.Some? <==> r.loggedIn && env.login.Returned? && env.login.value.Some?
    ensures r.saved.Some? ==> env.login == Returned(r.saved)
    ensures AuthInForce(env) == Threw ==> r.end == Failed && r.listedWith.None?
    ensures AuthInForce(env) == Returned(None) ==> r.end == NoAuth && r.listedWith.None?
    ensures AuthInForce(env).Returned? && AuthInForce(env).value.Some? ==>
              var token := AuthInForce(env).value.value.accessToken;
              && r.listedWith == token
              && (token.None? ==> r.end == NoAccessToken)
              && (token.Some? ==>
                    r.end == match env.photosList(token.value)
                             case Threw => Failed
                             case Returned(None) => NoPhotos
                             case Returned(Some(photos)) =>
                               Downloaded(Downloads(
                                 Filtered(env.parseAsLocal, TimeSpan(8, 0, 0), TimeSpan(12, 0, 0), photos),
                                 env.parse, env.getExtension)))
    ensures r.end == Failed <==>
              AuthInForce(env) == Threw || (r.listedWith.Some? && env.photosList(r.listedWith.value) == Threw)
  {
    TimeOfDayOfWholeSeconds(8 * 3600);
    TimeOfDayOfWholeSeconds(12 * 3600);
    match env.storedAuth
    case Threw => SyncRun(false, None, None, Failed)
    case Returned(stored) =>
      match NeedsLogin(stored, env)
      case Threw => SyncRun(false, None, None, Failed)
      case Returned(needsLogin) =>
        if needsLogin then
          match env.login
          case Threw => SyncRun(true, None, None, Failed)
          case Returned(newAuth) => ListAndDownload(env, newAuth, true, newAuth)
        else ListAndDownload(env, stored, false, None)
  }

  /** Credentials whose token is still valid are used as they are: no login, nothing saved. */
  lemma ValidStoredAuthReused(env: Env, token: string, exp: int)
    requires env.storedAuth == Returned(Some(AuthenticationResult(Some(token))))
    requires env.readToken(token) == Jwt(Some(exp)) && Representable(exp)
    requires env.utcNowTicks < exp * TicksPerSecond
    ensures !SyncPhotos(env).loggedIn && SyncPhotos(env).saved.None?
    ensures SyncPhotos(env).listedWith == Some(token)
  {
  }

  /** A stored token whose `exp` `DateTimeOffset` cannot hold ends the sync before any login or listing. */
  lemma UnrepresentableExpirationEndsSync(env: Env, token: string, exp: int)
    requires env.storedAuth == Returned(Some(AuthenticationResult(Some(token))))
    requires env.readToken(token) == Jwt(Some(exp)) && !Representable(exp)
    ensures SyncPhotos(env) == SyncRun(false, None, None, Failed)
  {
  }
}
