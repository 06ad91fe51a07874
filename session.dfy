/**
 * The web session: the selected season, kept across requests by the
 * before-request handler, and the admin login flag set by the login form
 * and cleared by logout.
 */
module Sessions {
  import opened Wrappers
  import opened PyStr

  /** A session value: the season label, the login flag, or the list of flashed (category, message) pairs. */
  datatype Val = Str(s: string) | Flag(b: bool) | Flashes(pending: seq<(string, string)>)

  /** What the handler looks at in a request. */
  datatype Request = Request(endpoint: Option<string>, path: string, viewArgs: Option<map<string, string>>)

  /** How the admin route answers. */
  datatype AdminPage =
    | Panel               // already logged in: the file status panel
    | RedirectToPanel     // the right password: logged in now
    | LoginForm(wrongPassword: bool)

  const SeasonKey := "current_season"
  const AdminKey := "admin_logged_in"
  /** Where Flask's `flash` keeps the messages not yet shown. */
  const FlashesKey := "_flashes"

  const WrongPassword := "Contraseña incorrecta. Inténtalo de nuevo."
  const LoggedOut := "Has cerrado la sesión correctamente."

  /** `session.get("_flashes", [])`. */
  function Pending(entries: map<string, Val>): seq<(string, string)> {
    if FlashesKey in entries && entries[FlashesKey].Flashes? then entries[FlashesKey].pending else []
  }

  /** Static files and `.ico` requests leave the session alone. */
  predicate Skipped(req: Request) {
    req.endpoint == Some("static") || EndsWith(req.path, ".ico")
  }

  /** `request.view_args.get("season") if request.view_args else None`. */
  function UrlSeason(req: Request): Option<string> {
    if req.viewArgs.Some? && "season" in req.viewArgs.value then Some(req.viewArgs.value["season"]) else None
  }

  /** A URL season is taken only when it contains a '-' (as in "25-26"). */
  predicate AcceptedSeason(req: Request) {
    UrlSeason(req).Some? && '-' in UrlSeason(req).value
  }

  class Session {
    var entries: map<string, Val>

    constructor ()
      ensures entries == map[]
    {
      entries := map[];
    }

    /**
     * `manage_season`. Returns `g.season`, or None when the request is
     * skipped and `g.season` is not set.
     */
    method ManageSeason(req: Request, defaultSeason: string) returns (season: Option<Val>)
      modifies this
      ensures Skipped(req) ==> entries == old(entries) && season == None
      ensures !Skipped(req) && AcceptedSeason(req) ==>
        entries == old(entries)[SeasonKey := Str(UrlSeason(req).value)]
      ensures !Skipped(req) && !AcceptedSeason(req) && SeasonKey in old(entries) ==>
        entries == old(entries)
      ensures !Skipped(req) && !AcceptedSeason(req) && SeasonKey !in old(entries) ==>
        entries == old(entries)[SeasonKey := Str(defaultSeason)]
      ensures !Skipped(req) ==> SeasonKey in entries && season == Some(entries[SeasonKey])
    {
      if req.endpoint == Some("static") || EndsWith(req.path, ".ico") {
        return None;
      }
      if SeasonKey !in entries {
        entries := entries[SeasonKey := Str(defaultSeason)];
      }
      var seasonFromUrl := if req.viewArgs.Some? && req.viewArgs.value != map[] && "season" in req.viewArgs.value
                           then Some(req.viewArgs.value["season"]) else None;
      if seasonFromUrl.Some? && seasonFromUrl.value != "" && '-' in seasonFromUrl.value {
        entries := entries[SeasonKey := Str(seasonFromUrl.value)];
      }
      season := Some(entries[SeasonKey]);
    }

    /**
     * Flask's `flash`: append the pair to the pending messages and store
     * the list back under `_flashes`.
     */
    method Flash(message: string, category: string)
      modifies this
      ensures entries == old(entries)[FlashesKey := Flashes(Pending(old(entries)) + [(category, message)])]
    {
      var flashes := Pending(entries);
      flashes := flashes + [(category, message)];
      entries := entries[FlashesKey := Flashes(flashes)];
    }

    /**
     * The login part of `admin`. `isPost` is the request method, `password`
     * the form field (None when absent) and `adminPassword` the configured
     * one; the two are compared as Python compares them, None included.
     */
    method Admin(isPost: bool, password: Option<string>, adminPassword: Option<string>) returns (page: AdminPage)
      modifies this
      ensures AdminKey in old(entries) ==> page == Panel && entries == old(entries)
      ensures AdminKey !in old(entries) && isPost && password == adminPassword ==>
        page == RedirectToPanel && entries == old(entries)[AdminKey := Flag(true)]
      ensures AdminKey !in old(entries) && isPost && password != adminPassword ==>
        page == LoginForm(true) &&
        entries == old(entries)[FlashesKey := Flashes(Pending(old(entries)) + [("error", WrongPassword)])]
      ensures AdminKey !in old(entries) && !isPost ==> page == LoginForm(false) && entries == old(entries)
    {
      if AdminKey in entries {
        return Panel;
      }
      if isPost {
        if password == adminPassword {
          entries := entries[AdminKey := Flag(true)];
          return RedirectToPanel;
        } else {
          Flash(WrongPassword, "error");
          return LoginForm(true);
        }
      }
      return LoginForm(false);
    }

    /** `logout`: drop the login flag and flash the goodbye message; every other key is kept. */
    method Logout()
      modifies this
      ensures entries == (old(entries) - {AdminKey})[FlashesKey := Flashes(Pending(old(entries)) + [("info", LoggedOut)])]
      ensures AdminKey !in entries
    {
      entries := entries - {AdminKey};
      Flash(LoggedOut, "info");
    }
  }
}
