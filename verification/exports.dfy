/** Finding the saved export: the paginated export-settings listing, the
    choice of the setting whose name matches, and the stable `data.csv`
    download URL derived from it. */
module Exports {

  import opened Wrappers
  import opened Text
  import Retry

  /** One export-settings item; a key that is absent or `null` is `None`. */
  datatype Setting = Setting(name: Option<string>, title: Option<string>, url: Option<string>, uid: Option<string>)

  /** The decoded JSON of one listing page: an envelope with `results`
      (a `null` list read as empty) and `next`, a bare list, or anything
      else. */
  datatype Body =
    | Envelope(results: seq<Setting>, next: Option<string>)
    | BareList(items: seq<Setting>)
    | OtherShape

  /** Fatal errors while locating the export. */
  datatype LocateError =
    | ListingUnavailable(failure: Retry.FetchFailure)
    | ListingStatus(status: int)
    | NoExportSettings
    | ExportNotFound(wanted: string, shown: seq<string>, more: bool)
    | MissingUrlAndUid

  // ---------------------------------------------------------------------
  // pagination

  /** The state of the listing loop: the settings collected so far and the
      URL the loop would fetch next (`None` once the loop has ended). */
  datatype Listing = Listing(collected: seq<Setting>, pending: Option<string>)

  /** What a page body adds to the collected settings. */
  function PageItems(b: Body): seq<Setting> {
    match b
    case Envelope(rs, _) => rs
    case BareList(xs) => xs
    case OtherShape => []
  }

  /** Where the loop goes after a page: only an envelope continues. */
  function PageNext(b: Body): Option<string> {
    match b
    case Envelope(_, nx) => nx
    case _ => None
  }

  /** `fetch_all_export_settings` from `url`, run for at most `fuel` loop
      iterations. `fetchPage(u)` stands for the retried GET of `u`, its
      status check and JSON decoding; a failure there aborts the listing.
      The loop runs while the URL is a non-empty string. */
  function Paginate(url: Option<string>, fetchPage: string -> Result<Body, LocateError>, fuel: nat): (r: Result<Listing, LocateError>)
    ensures !Truthy(url) ==> r == Success(Listing([], None))
    ensures r.Success? && r.value.pending.Some? ==> Truthy(r.value.pending)
    ensures Truthy(url) && fuel > 0 && fetchPage(url.value).Failure? ==> r == Failure(fetchPage(url.value).error)
    decreases fuel
  {
    if !Truthy(url) then Success(Listing([], None))
    else if fuel == 0 then Success(Listing([], url))
    else
      match fetchPage(url.value)
      case Failure(e) => Failure(e)
      case Success(Envelope(rs, nx)) =>
        (match Paginate(nx, fetchPage, fuel - 1)
         case Failure(e) => Failure(e)
         case Success(rest) => Success(Listing(rs + rest.collected, rest.pending)))
      case Success(BareList(xs)) => Success(Listing(xs, None))
      case Success(OtherShape) => Success(Listing([], None))
  }

  /** The URLs the loop requests, in order, within `fuel` iterations. */
  function Visited(url: Option<string>, fetchPage: string -> Result<Body, LocateError>, fuel: nat): (vs: seq<string>)
    ensures |vs| <= fuel
    ensures forall i :: 0 <= i < |vs| ==> vs[i] != ""
    decreases fuel
  {
    if !Truthy(url) || fuel == 0 then []
    else
      match fetchPage(url.value)
      case Success(b) => [url.value] + Visited(PageNext(b), fetchPage, fuel - 1)
      case Failure(_) => [url.value]
  }

  /** The items of the pages fetched from `vs`, concatenated in page order. */
  function ItemsOf(vs: seq<string>, fetchPage: string -> Result<Body, LocateError>): seq<Setting> {
    if vs == [] then []
    else
      (match fetchPage(vs[0]) case Success(b) => PageItems(b) case Failure(_) => [])
      + ItemsOf(vs[1..], fetchPage)
  }

  /** The collected settings are exactly the `results` (or bare list) of the
      requested pages, concatenated in the order the pages were requested. */
  lemma {:induction false} PaginateCollectsVisitedPages(url: Option<string>, fetchPage: string -> Result<Body, LocateError>, fuel: nat)
    requires Paginate(url, fetchPage, fuel).Success?
    ensures Paginate(url, fetchPage, fuel).value.collected == ItemsOf(Visited(url, fetchPage, fuel), fetchPage)
    decreases fuel
  {
    if Truthy(url) && fuel > 0 {
      var vs := Visited(url, fetchPage, fuel);
      match fetchPage(url.value)
      case Success(b) =>
        assert vs[1..] == Visited(PageNext(b), fetchPage, fuel - 1);
        if b.Envelope? {
          PaginateCollectsVisitedPages(b.next, fetchPage, fuel - 1);
        } else {
          assert Visited(None, fetchPage, fuel - 1) == [];
        }
      case Failure(_) =>
    }
  }

  /** More fuel than the loop needs changes nothing: once the loop has
      ended (or failed) within `fuel` iterations, every larger budget gives
      the same answer. */
  lemma {:induction false} PaginateFuelIrrelevant(url: Option<string>, fetchPage: string -> Result<Body, LocateError>, fuel: nat, more: nat)
    requires fuel <= more
    requires Paginate(url, fetchPage, fuel).Failure? || Paginate(url, fetchPage, fuel).value.pending.None?
    ensures Paginate(url, fetchPage, more) == Paginate(url, fetchPage, fuel)
    decreases fuel
  {
    if Truthy(url) && fuel > 0 {
      match fetchPage(url.value)
      case Success(Envelope(rs, nx)) =>
        PaginateFuelIrrelevant(nx, fetchPage, fuel - 1, more - 1);
      case _ =>
    }
  }

  /** Running the loop for `n` and then `k` more iterations is running it
      for `n + k`: a pending listing resumes from its next URL and the new
      settings are appended after those already collected. */
  lemma {:induction false} PaginateResume(url: Option<string>, fetchPage: string -> Result<Body, LocateError>, n: nat, k: nat)
    requires Paginate(url, fetchPage, n).Success? && Paginate(url, fetchPage, n).value.pending.Some?
    ensures var first := Paginate(url, fetchPage, n).value;
      Paginate(url, fetchPage, n + k) ==
        match Paginate(first.pending, fetchPage, k)
        case Failure(e) => Failure(e)
        case Success(rest) => Success(Listing(first.collected + rest.collected, rest.pending))
    decreases n
  {
    if n > 0 {
      match fetchPage(url.value)
      case Success(Envelope(rs, nx)) =>
        PaginateResume(nx, fetchPage, n - 1, k);
        var mid := Paginate(nx, fetchPage, n - 1).value;
        match Paginate(mid.pending, fetchPage, k) {
          case Failure(e) =>
          case Success(rest) =>
            assert rs + (mid.collected + rest.collected) == (rs + mid.collected) + rest.collected;
        }
      case _ =>
    } else {
      match Paginate(url, fetchPage, k) {
        case Failure(e) =>
        case Success(rest) =>
          assert [] + rest.collected == rest.collected;
      }
    }
  }

  /** Two envelope pages linked by `next`: both pages' results are collected
      in page order before any name is looked at. */
  lemma TwoPages(u1: string, u2: string, a: seq<Setting>, b: seq<Setting>, fetchPage: string -> Result<Body, LocateError>, fuel: nat)
    requires u1 != "" && u2 != "" && fuel >= 2
    requires fetchPage(u1) == Success(Envelope(a, Some(u2)))
    requires fetchPage(u2) == Success(Envelope(b, None))
    ensures Paginate(Some(u1), fetchPage, fuel) == Success(Listing(a + b, None))
  {
    assert Paginate(Some(u2), fetchPage, fuel - 1) == Success(Listing(b + [], None));
    assert b + [] == b;
  }

  /** A bare-list body is taken whole and ends the loop; any other body
      that is not an envelope ends it with nothing added. */
  lemma PageEndsLoop(u: string, fetchPage: string -> Result<Body, LocateError>, fuel: nat)
    requires u != "" && fuel > 0
    requires fetchPage(u).Success? && !fetchPage(u).value.Envelope?
    ensures Paginate(Some(u), fetchPage, fuel) == Success(Listing(PageItems(fetchPage(u).value), None))
  {
  }

  // ---------------------------------------------------------------------
  // choosing the export by name

  /** The name a setting is known by: its name, else its title, else the
      empty string, stripped of surrounding whitespace. */
  function SettingName(it: Setting): string {
    Strip(OrElse(it.name, OrElse(it.title, "")))
  }

  /** The name of every setting, in listing order. */
  function Names(settings: seq<Setting>): (r: seq<string>)
    ensures |r| == |settings|
    ensures forall i :: 0 <= i < |r| ==> r[i] == SettingName(settings[i])
  {
    seq(|settings|, i requires 0 <= i < |settings| => SettingName(settings[i]))
  }

  /** The non-empty names, in listing order (the list `available`). */
  function AvailableNames(names: seq<string>): (r: seq<string>)
    ensures |r| <= |names|
    ensures forall n :: n in r <==> n != "" && n in names
  {
    if names == [] then []
    else
      var init := names[..|names| - 1];
      var rest := AvailableNames(init);
      var n := names[|names| - 1];
      assert names == init + [n];
      if n != "" then rest + [n] else rest
  }

  /** A single setting adds its name to `available` exactly when the name
      is non-empty. */
  lemma AvailableNamesOne(n: string)
    ensures AvailableNames([n]) == if n != "" then [n] else []
  {
    assert [n][..0] == [];
  }

  /** `available` is built by appending in listing order, so the names of
      consecutive runs of settings follow each other, repeats included. */
  lemma {:induction false} AvailableNamesAppend(a: seq<string>, b: seq<string>)
    ensures AvailableNames(a + b) == AvailableNames(a) + AvailableNames(b)
    decreases |b|
  {
    if b == [] {
      assert a + b == a;
    } else {
      var init := b[..|b| - 1];
      assert (a + b)[..|a + b| - 1] == a + init;
      assert (a + b)[|a + b| - 1] == b[|b| - 1];
      AvailableNamesAppend(a, init);
    }
  }

  /** Index of the match the loop keeps: there is no `break`, so the last
      match wins. */
  function LastMatch(names: seq<string>, wanted: string): (r: Option<nat>)
    ensures r.Some? ==> r.value < |names| && names[r.value] == wanted
    ensures r.Some? ==> forall j :: r.value < j < |names| ==> names[j] != wanted
    ensures r.None? <==> wanted !in names
  {
    if names == [] then None
    else if names[|names| - 1] == wanted then Some(|names| - 1)
    else
      var init := names[..|names| - 1];
      assert names == init + [names[|names| - 1]];
      LastMatch(init, wanted)
  }

  /** The operator-facing list of names in the not-found error: the first
      twenty, and whether more were cut off. */
  function Shown(names: seq<string>): (r: seq<string>)
    ensures |r| <= 20 && |r| <= |names| && r == names[..|r|]
    ensures |names| <= 20 ==> r == names
    ensures |names| > 20 ==> |r| == 20
  {
    if |names| <= 20 then names else names[..20]
  }

  /** The export-selection step of the sync (`SelectExportChoosesLastMatch`
      and `SelectExportFailure` state what it chooses). */
  function SelectExport(settings: seq<Setting>, wanted: string): Result<Setting, LocateError> {
    if settings == [] then Failure(NoExportSettings)
    else
      var names := Names(settings);
      match LastMatch(names, wanted)
      case Some(i) => Success(settings[i])
      case None =>
        var available := AvailableNames(names);
        Failure(ExportNotFound(wanted, Shown(available), |available| > 20))
  }

  /** A chosen setting is the last one whose name (falling back to its
      title, stripped) equals `wanted`. */
  lemma SelectExportChoosesLastMatch(settings: seq<Setting>, wanted: string)
    ensures var r := SelectExport(settings, wanted);
      r.Success? ==> exists i :: (0 <= i < |settings| && settings[i] == r.value
        && SettingName(r.value) == wanted
        && forall j :: i < j < |settings| ==> SettingName(settings[j]) != wanted)
  {
    var names := Names(settings);
    var m := LastMatch(names, wanted);
    if settings != [] && m.Some? {
      var i := m.value;
      assert SelectExport(settings, wanted) == Success(settings[i]);
      assert SettingName(settings[i]) == wanted;
      forall j | i < j < |settings| ensures SettingName(settings[j]) != wanted {
        assert names[j] != wanted;
      }
    }
  }

  /** An empty listing is fatal. Otherwise selection fails exactly when no
      setting has the wanted name, and the error reports `wanted` and the
      available non-empty names. */
  lemma SelectExportFailure(settings: seq<Setting>, wanted: string)
    ensures settings == [] ==> SelectExport(settings, wanted) == Failure(NoExportSettings)
    ensures settings != [] ==>
      (SelectExport(settings, wanted).Failure? <==> forall j :: 0 <= j < |settings| ==> SettingName(settings[j]) != wanted)
    ensures settings != [] && SelectExport(settings, wanted).Failure? ==>
      var available := AvailableNames(Names(settings));
      SelectExport(settings, wanted).error == ExportNotFound(wanted, Shown(available), |available| > 20)
  {
    var names := Names(settings);
    if settings != [] {
      if LastMatch(names, wanted).Some? {
        var i := LastMatch(names, wanted).value;
        assert SettingName(settings[i]) == wanted;
      } else {
        forall j | 0 <= j < |settings| ensures SettingName(settings[j]) != wanted {
          assert names[j] in names;
        }
      }
    }
  }

  /** Among several settings with the wanted name the later one is chosen. */
  lemma LastMatchWins(a: Setting, b: Setting, wanted: string)
    requires wanted != [] && !IsSpace(wanted[0]) && !IsSpace(wanted[|wanted| - 1])
    requires a.name == Some(wanted) && b.name == Some(wanted)
    ensures SelectExport([a, b], wanted) == Success(b)
  {
    StripUntrimmed(wanted);
    assert SettingName(a) == wanted && SettingName(b) == wanted;
  }

  // ---------------------------------------------------------------------
  // download URL

  /** The settings URL before the suffix: `url`, else the path built from
      `uid`, with a leading-`/` path resolved against `base`. */
  function ResolvedUrl(it: Setting, base: string, asset: string): Option<string> {
    var u :=
      if Truthy(it.url) then Some(it.url.value)
      else if Truthy(it.uid) then Some("/api/v2/assets/" + asset + "/export-settings/" + it.uid.value + "/")
      else None;
    match u
    case None => None
    case Some(s) => Some(if StartsWith(s, "/") then base + s else s)
  }

  const DataSuffix: string := "/data.csv"

  /** `build_data_csv_url`: fails exactly when the setting has neither a
      non-empty `url` nor a non-empty `uid`. Otherwise the result ends in
      `/data.csv`, and what precedes the suffix is the resolved settings
      URL with its trailing slashes removed: it does not end in `/`, and
      the resolved URL is it followed only by slashes. */
  function BuildDataCsvUrl(it: Setting, base: string, asset: string): (r: Result<string, LocateError>)
    ensures r.Failure? <==> !Truthy(it.url) && !Truthy(it.uid)
    ensures r.Failure? ==> r.error == MissingUrlAndUid
    ensures r.Success? ==>
      && EndsWith(r.value, DataSuffix)
      && var p := r.value[..|r.value| - |DataSuffix|];
         var full := ResolvedUrl(it, base, asset).value;
         && (p == [] || p[|p| - 1] != '/')
         && StartsWith(full, p)
         && forall i :: |p| <= i < |full| ==> full[i] == '/'
  {
    match ResolvedUrl(it, base, asset)
    case None => Failure(MissingUrlAndUid)
    case Some(full) =>
      var p := RStripChar(full, '/');
      var r := p + DataSuffix;
      assert r[..|r| - |DataSuffix|] == p;
      Success(r)
  }

  /** An absolute `url` without trailing slash just gets the suffix. */
  lemma AbsoluteUrlGetsSuffix(it: Setting, base: string, asset: string)
    requires Truthy(it.url) && !StartsWith(it.url.value, "/") && it.url.value[|it.url.value| - 1] != '/'
    ensures BuildDataCsvUrl(it, base, asset) == Success(it.url.value + "/data.csv")
  {
  }

  /** A `url` that is a path is resolved against `base`. */
  lemma RelativeUrlResolved(it: Setting, base: string, asset: string)
    requires Truthy(it.url) && StartsWith(it.url.value, "/")
    ensures BuildDataCsvUrl(it, base, asset) == Success(RStripChar(base + it.url.value, '/') + "/data.csv")
  {
  }

  /** Without a `url`, the `uid` gives the asset's export-settings path. */
  lemma UidFallback(it: Setting, base: string, asset: string)
    requires !Truthy(it.url) && Truthy(it.uid) && it.uid.value[|it.uid.value| - 1] != '/'
    ensures BuildDataCsvUrl(it, base, asset)
         == Success(base + "/api/v2/assets/" + asset + "/export-settings/" + it.uid.value + "/data.csv")
  {
    var path := "/api/v2/assets/" + asset + "/export-settings/" + it.uid.value + "/";
    var stem := base + "/api/v2/assets/" + asset + "/export-settings/" + it.uid.value;
    assert StartsWith(path, "/");
    assert base + path == stem + seq(1, _ => '/');
    RStripCharRun(stem, '/', 1);
  }

  /** The first half of the sync: choose the export among the listed
      settings and derive its download URL. */
  function LocateExport(settings: seq<Setting>, wanted: string, base: string, asset: string): (r: Result<string, LocateError>)
    ensures r.Success? ==> EndsWith(r.value, DataSuffix)
    ensures r.Success? ==> exists i :: 0 <= i < |settings| && SettingName(settings[i]) == wanted
    ensures SelectExport(settings, wanted).Success? ==>
      r == BuildDataCsvUrl(SelectExport(settings, wanted).value, base, asset)
    ensures SelectExport(settings, wanted).Failure? ==> r == Failure(SelectExport(settings, wanted).error)
    ensures (forall j :: 0 <= j < |settings| ==> SettingName(settings[j]) != wanted) ==> r.Failure?
  {
    SelectExportChoosesLastMatch(settings, wanted);
    SelectExportFailure(settings, wanted);
    match SelectExport(settings, wanted)
    case Failure(e) => Failure(e)
    case Success(it) => BuildDataCsvUrl(it, base, asset)
  }
}
