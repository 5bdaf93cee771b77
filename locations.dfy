/**
 * The sites and locations page: soft deletion and restoration of sites and locations, and the
 * list of sites with their locations built from a joined query, one row per (site, location).
 */
module Locations {
  import opened Common
  import opened Schema

  // ---------------------------------------------------------------------------------------
  // Activation

  /** The site table with that site's flag set; an unknown id matches no row. */
  function SiteFlagged(sites: map<int, Site>, siteId: int, active: bool): (r: map<int, Site>)
    ensures r.Keys == sites.Keys
    ensures siteId in sites ==> r[siteId] == sites[siteId].(active := active)
    ensures forall id :: id in sites && id != siteId ==> r[id] == sites[id]
  {
    if siteId in sites then sites[siteId := sites[siteId].(active := active)] else sites
  }

  /** The location table with that location's flag set; an unknown id matches no row. */
  function LocationFlagged(locations: map<int, Location>, locationId: int, active: bool): (r: map<int, Location>)
    ensures r.Keys == locations.Keys
    ensures locationId in locations ==> r[locationId] == locations[locationId].(active := active)
    ensures forall id :: id in locations && id != locationId ==> r[id] == locations[id]
  {
    if locationId in locations then locations[locationId := locations[locationId].(active := active)] else locations
  }

  /** The location table with every location of the site made inactive. */
  function SiteLocationsDeactivated(locations: map<int, Location>, siteId: int): (r: map<int, Location>)
    ensures r.Keys == locations.Keys
    ensures forall id :: id in locations && locations[id].siteId == siteId ==> r[id] == locations[id].(active := false)
    ensures forall id :: id in locations && locations[id].siteId != siteId ==> r[id] == locations[id]
  {
    map id | id in locations :: if locations[id].siteId == siteId then locations[id].(active := false) else locations[id]
  }

  /** deactivate_site: the site and every location that belongs to it become inactive. */
  method DeactivateSite(db: Database, siteId: int)
    modifies db`sites, db`locations
    ensures db.sites == SiteFlagged(old(db.sites), siteId, false)
    ensures db.locations == SiteLocationsDeactivated(old(db.locations), siteId)
  {
    db.sites := SiteFlagged(db.sites, siteId, false);
    db.locations := SiteLocationsDeactivated(db.locations, siteId);
  }

  /** deactivate_location: only that location becomes inactive. */
  method DeactivateLocation(db: Database, locationId: int)
    modifies db`locations
    ensures db.locations == LocationFlagged(old(db.locations), locationId, false)
  {
    db.locations := LocationFlagged(db.locations, locationId, false);
  }

  /** reactivate_site: only the site becomes active again; its locations stay as they are. */
  method ReactivateSite(db: Database, siteId: int)
    modifies db`sites
    ensures db.sites == SiteFlagged(old(db.sites), siteId, true)
  {
    db.sites := SiteFlagged(db.sites, siteId, true);
  }

  /** reactivate_location: only that location becomes active again. */
  method ReactivateLocation(db: Database, locationId: int)
    modifies db`locations
    ensures db.locations == LocationFlagged(old(db.locations), locationId, true)
  {
    db.locations := LocationFlagged(db.locations, locationId, true);
  }

  /**
   * Deactivating a site and then reactivating it restores the site but not its locations: each
   * of them, active or not before, ends inactive.
   */
  lemma ReactivationDoesNotCascade(sites: map<int, Site>, locations: map<int, Location>, siteId: int)
    requires siteId in sites
    ensures SiteFlagged(SiteFlagged(sites, siteId, false), siteId, true)[siteId].active
    ensures forall id :: id in locations && locations[id].siteId == siteId ==>
              !SiteLocationsDeactivated(locations, siteId)[id].active
  {
  }

  /** Restoring a deactivated location restores it as it was when it was active. */
  lemma LocationRoundTrip(locations: map<int, Location>, locationId: int)
    requires locationId in locations && locations[locationId].active
    ensures LocationFlagged(LocationFlagged(locations, locationId, false), locationId, true) == locations
  {
    var r := LocationFlagged(LocationFlagged(locations, locationId, false), locationId, true);
    assert forall id :: id in locations ==> r[id] == locations[id];
  }

  // ---------------------------------------------------------------------------------------
  // The message after a POST

  /** The query the page redirects to after a POST. */
  datatype Flash = SuccessMessage(text: string) | ErrorMessage(text: string) | NoMessage

  /** The success message if one was set, otherwise the error, otherwise nothing (both read as PHP truth values). */
  function RedirectMessage(success: string, error: string): (f: Flash)
    ensures f.SuccessMessage? <==> Truthy(success)
    ensures f.ErrorMessage? <==> !Truthy(success) && Truthy(error)
    ensures f.SuccessMessage? ==> f.text == success
    ensures f.ErrorMessage? ==> f.text == error
  {
    if Truthy(success) then SuccessMessage(success)
    else if Truthy(error) then ErrorMessage(error)
    else NoMessage
  }

  // ---------------------------------------------------------------------------------------
  // Grouping the joined rows by site

  /**
   * One row of the sites-with-locations query; `locationId` is 0 where the left join found no
   * location.
   */
  datatype SiteRow = SiteRow(siteId: int, siteName: string, locationId: int, locationName: string, locationActive: bool)

  datatype LocationEntry = LocationEntry(locationId: int, name: string, active: bool)

  /** One site of the list with its locations. */
  datatype SiteGroup = SiteGroup(siteId: int, name: string, locations: seq<LocationEntry>)

  /** A row contributes a location: it has one, and it is active unless inactive ones are shown. */
  predicate Attached(row: SiteRow, showInactive: bool)
  {
    row.locationId != 0 && (showInactive || row.locationActive)
  }

  function Entry(row: SiteRow): LocationEntry
  {
    LocationEntry(row.locationId, row.locationName, row.locationActive)
  }

  function SiteIds(rows: seq<SiteRow>): (ids: seq<int>)
    ensures |ids| == |rows| && forall i :: 0 <= i < |rows| ==> ids[i] == rows[i].siteId
  {
    seq(|rows|, i requires 0 <= i < |rows| => rows[i].siteId)
  }

  /** The locations the first `n` rows attach to the site, in row order. */
  function AttachedTo(rows: seq<SiteRow>, n: nat, siteId: int, showInactive: bool): (ls: seq<LocationEntry>)
    requires n <= |rows|
    ensures |ls| <= n
  {
    if n == 0 then []
    else
      var ls := AttachedTo(rows, n - 1, siteId, showInactive);
      ls + (if rows[n - 1].siteId == siteId && Attached(rows[n - 1], showInactive) then [Entry(rows[n - 1])] else [])
  }

  /** A site's group lists exactly the locations of its rows that attach one. */
  lemma {:induction false} AttachedToMembers(rows: seq<SiteRow>, n: nat, siteId: int, showInactive: bool)
    requires n <= |rows|
    ensures forall l :: l in AttachedTo(rows, n, siteId, showInactive) <==>
              exists i :: 0 <= i < n && rows[i].siteId == siteId && Attached(rows[i], showInactive) && Entry(rows[i]) == l
  {
    if n > 0 {
      AttachedToMembers(rows, n - 1, siteId, showInactive);
    }
  }

  /**
   * The list the page shows: one group per site, in the order its first row appears, named from
   * that row, holding the locations its rows attach.
   */
  function Grouped(rows: seq<SiteRow>, showInactive: bool): (gs: seq<SiteGroup>)
  {
    var ps := FirstPositions(SiteIds(rows), |rows|);
    seq(|ps|, k requires 0 <= k < |ps| =>
      SiteGroup(rows[ps[k]].siteId, rows[ps[k]].siteName, AttachedTo(rows, |rows|, rows[ps[k]].siteId, showInactive)))
  }

  /** Each site of the rows appears in exactly one group, and no group is for a site without rows. */
  lemma GroupedOncePerSite(rows: seq<SiteRow>, showInactive: bool)
    ensures var gs := Grouped(rows, showInactive);
            && (forall k, l :: 0 <= k < l < |gs| ==> gs[k].siteId != gs[l].siteId)
            && (forall j :: 0 <= j < |rows| ==> exists k :: 0 <= k < |gs| && gs[k].siteId == rows[j].siteId)
            && (forall k :: 0 <= k < |gs| ==> exists j :: 0 <= j < |rows| && rows[j].siteId == gs[k].siteId)
  {
    GroupsDistinct(rows, showInactive);
    GroupsCoverRows(rows, showInactive);
    var gs := Grouped(rows, showInactive);
    var ps := FirstPositions(SiteIds(rows), |rows|);
    forall k | 0 <= k < |gs|
      ensures exists j :: 0 <= j < |rows| && rows[j].siteId == gs[k].siteId
    {
      assert rows[ps[k]].siteId == gs[k].siteId;
    }
  }

  lemma GroupsDistinct(rows: seq<SiteRow>, showInactive: bool)
    ensures var gs := Grouped(rows, showInactive);
            forall k, l :: 0 <= k < l < |gs| ==> gs[k].siteId != gs[l].siteId
  {
    var keys := SiteIds(rows);
    var ps := FirstPositions(keys, |rows|);
    var gs := Grouped(rows, showInactive);
    FirstPositionsDistinct(keys, |rows|);
    forall k, l | 0 <= k < l < |gs|
      ensures gs[k].siteId != gs[l].siteId
    {
      assert gs[k].siteId == keys[ps[k]] && gs[l].siteId == keys[ps[l]];
    }
  }

  lemma GroupsCoverRows(rows: seq<SiteRow>, showInactive: bool)
    ensures var gs := Grouped(rows, showInactive);
            forall j :: 0 <= j < |rows| ==> exists k :: 0 <= k < |gs| && gs[k].siteId == rows[j].siteId
  {
    var keys := SiteIds(rows);
    var ps := FirstPositions(keys, |rows|);
    var gs := Grouped(rows, showInactive);
    forall j | 0 <= j < |rows|
      ensures exists k :: 0 <= k < |gs| && gs[k].siteId == rows[j].siteId
    {
      FirstPositionsCover(keys, |rows|, j);
      var k :| 0 <= k < |ps| && keys[ps[k]] == keys[j];
      assert gs[k].siteId == rows[ps[k]].siteId;
    }
  }

  /**
   * The groups come in first-seen order: a group is listed before another exactly when its
   * site's first row comes before the other site's first row, and it is named from that row.
   */
  lemma GroupedFirstSeenOrder(rows: seq<SiteRow>, showInactive: bool)
    ensures var gs := Grouped(rows, showInactive);
            var ps := FirstPositions(SiteIds(rows), |rows|);
            && (forall k, l :: 0 <= k < l < |gs| ==> ps[k] < ps[l])
            && (forall k :: 0 <= k < |gs| ==>
                  && gs[k].name == rows[ps[k]].siteName
                  && forall i :: 0 <= i < ps[k] ==> rows[i].siteId != gs[k].siteId)
  {
    var keys := SiteIds(rows);
    var ps := FirstPositions(keys, |rows|);
    forall k | 0 <= k < |ps|
      ensures forall i :: 0 <= i < ps[k] ==> rows[i].siteId != rows[ps[k]].siteId
    {
      assert FirstAt(keys, ps[k]);
    }
  }

  /** With inactive locations hidden, no group lists an inactive location; rows without a location add none. */
  lemma HiddenInactive(rows: seq<SiteRow>)
    ensures forall g, l :: g in Grouped(rows, false) && l in g.locations ==> l.active && l.locationId != 0
  {
    forall g, l | g in Grouped(rows, false) && l in g.locations
      ensures l.active && l.locationId != 0
    {
      AttachedToMembers(rows, |rows|, g.siteId, false);
      var i :| 0 <= i < |rows| && rows[i].siteId == g.siteId && Attached(rows[i], false) && Entry(rows[i]) == l;
    }
  }

  /**
   * The ordered array `$sites` (a map and the order of its keys) once the sites of the first
   * `m` rows are added and the locations of the first `n` rows attached.
   */
  ghost predicate Built(sites: map<int, SiteGroup>, order: seq<int>, rows: seq<SiteRow>, n: nat, m: nat, showInactive: bool)
    requires n <= m <= |rows|
  {
    var ps := FirstPositions(SiteIds(rows), m);
    && |order| == |ps|
    && (forall s :: s in sites <==> s in SiteIds(rows)[..m])
    && forall k :: 0 <= k < |order| ==>
         && order[k] == rows[ps[k]].siteId && order[k] in sites
         && sites[order[k]] == SiteGroup(rows[ps[k]].siteId, rows[ps[k]].siteName, AttachedTo(rows, n, order[k], showInactive))
  }

  /**
   * The grouping loop over PHP's ordered array `$sites`, kept as a map from site id to group
   * and the order its keys were added in: a group is added at the first row of each site, and
   * each row that attaches a location appends it to its site's group.
   */
  method GroupBySite(rows: seq<SiteRow>, showInactive: bool) returns (groups: seq<SiteGroup>)
    ensures groups == Grouped(rows, showInactive)
  {
    var sites: map<int, SiteGroup> := map[];
    var order: seq<int> := [];
    for i := 0 to |rows|
      invariant Built(sites, order, rows, i, i, showInactive)
    {
      var row := rows[i];
      OpenSite(sites, order, rows, i, showInactive);
      if row.siteId !in sites {
        sites := sites[row.siteId := SiteGroup(row.siteId, row.siteName, [])];
        order := order + [row.siteId];
      }
      AttachRow(sites, order, rows, i, showInactive);
      if Attached(row, showInactive) {
        sites := sites[row.siteId := sites[row.siteId].(locations := sites[row.siteId].locations + [Entry(row)])];
      }
    }
    groups := seq(|order|, k requires 0 <= k < |order| && order[k] in sites => sites[order[k]]);
    SameGroups(groups, rows, showInactive);
  }

  /** Adding the site of row `i` to the array when it is not there yet. */
  lemma OpenSite(sites: map<int, SiteGroup>, order: seq<int>, rows: seq<SiteRow>, i: nat, showInactive: bool)
    requires i < |rows| && Built(sites, order, rows, i, i, showInactive)
    ensures var s := rows[i].siteId;
            Built(if s in sites then sites else sites[s := SiteGroup(s, rows[i].siteName, [])],
                  if s in sites then order else order + [s], rows, i, i + 1, showInactive)
  {
    var keys := SiteIds(rows);
    FirstPositionsStep(keys, i);
    PrefixStep(keys, i);
    if rows[i].siteId in sites {
      SeenSite(sites, order, rows, i, showInactive);
    } else {
      NewSite(sites, order, rows, i, showInactive);
    }
  }

  /** A row of a site already in the array adds no group. */
  lemma SeenSite(sites: map<int, SiteGroup>, order: seq<int>, rows: seq<SiteRow>, i: nat, showInactive: bool)
    requires i < |rows| && Built(sites, order, rows, i, i, showInactive)
    requires rows[i].siteId in sites
    ensures Built(sites, order, rows, i, i + 1, showInactive)
  {
    var keys := SiteIds(rows);
    FirstPositionsStep(keys, i);
    PrefixStep(keys, i);
    assert keys[i] in keys[..i];
  }

  /** The first row of a site opens its group, with no locations yet, at the end of the order. */
  lemma NewSite(sites: map<int, SiteGroup>, order: seq<int>, rows: seq<SiteRow>, i: nat, showInactive: bool)
    requires i < |rows| && Built(sites, order, rows, i, i, showInactive)
    requires rows[i].siteId !in sites
    ensures Built(sites[rows[i].siteId := SiteGroup(rows[i].siteId, rows[i].siteName, [])],
                  order + [rows[i].siteId], rows, i, i + 1, showInactive)
  {
    var keys := SiteIds(rows);
    var s := rows[i].siteId;
    FirstPositionsStep(keys, i);
    PrefixStep(keys, i);
    assert keys[i] !in keys[..i];
    NoEarlierRows(rows, i, s, showInactive);
    var ps := FirstPositions(keys, i + 1);
    assert ps == FirstPositions(keys, i) + [i];
    var sites' := sites[s := SiteGroup(s, rows[i].siteName, [])];
    var order' := order + [s];
    forall k | 0 <= k < |order'|
      ensures && order'[k] == rows[ps[k]].siteId && order'[k] in sites'
              && sites'[order'[k]] == SiteGroup(rows[ps[k]].siteId, rows[ps[k]].siteName, AttachedTo(rows, i, order'[k], showInactive))
    {
      if k < |order| {
        assert order'[k] == order[k] && order[k] != s;
      }
    }
  }

  /** Appending the location of row `i` to its site's group when the row attaches one. */
  lemma AttachRow(sites: map<int, SiteGroup>, order: seq<int>, rows: seq<SiteRow>, i: nat, showInactive: bool)
    requires i < |rows| && Built(sites, order, rows, i, i + 1, showInactive)
    ensures rows[i].siteId in sites
    ensures var s := rows[i].siteId;
            Built(if Attached(rows[i], showInactive)
                  then sites[s := sites[s].(locations := sites[s].locations + [Entry(rows[i])])]
                  else sites,
                  order, rows, i + 1, i + 1, showInactive)
  {
    var keys := SiteIds(rows);
    PrefixStep(keys, i);
    assert rows[i].siteId in keys[..i + 1];
    if Attached(rows[i], showInactive) {
      AttachOne(sites, order, rows, i, showInactive);
    } else {
      AttachNone(sites, order, rows, i, showInactive);
    }
  }

  /** A row that attaches no location leaves every group as it is. */
  lemma AttachNone(sites: map<int, SiteGroup>, order: seq<int>, rows: seq<SiteRow>, i: nat, showInactive: bool)
    requires i < |rows| && Built(sites, order, rows, i, i + 1, showInactive)
    requires !Attached(rows[i], showInactive)
    ensures Built(sites, order, rows, i + 1, i + 1, showInactive)
  {
    var ps := FirstPositions(SiteIds(rows), i + 1);
    forall k | 0 <= k < |order|
      ensures sites[order[k]] == SiteGroup(rows[ps[k]].siteId, rows[ps[k]].siteName, AttachedTo(rows, i + 1, order[k], showInactive))
    {
      assert AttachedTo(rows, i + 1, order[k], showInactive) == AttachedTo(rows, i, order[k], showInactive);
    }
  }

  /** A row that attaches a location appends it to its own site's group and to no other. */
  lemma AttachOne(sites: map<int, SiteGroup>, order: seq<int>, rows: seq<SiteRow>, i: nat, showInactive: bool)
    requires i < |rows| && Built(sites, order, rows, i, i + 1, showInactive)
    requires Attached(rows[i], showInactive) && rows[i].siteId in sites
    ensures var s := rows[i].siteId;
            Built(sites[s := sites[s].(locations := sites[s].locations + [Entry(rows[i])])], order, rows, i + 1, i + 1, showInactive)
  {
    var s := rows[i].siteId;
    var sites' := sites[s := sites[s].(locations := sites[s].locations + [Entry(rows[i])])];
    var ps := FirstPositions(SiteIds(rows), i + 1);
    forall k | 0 <= k < |order|
      ensures order[k] in sites'
      ensures sites'[order[k]] == SiteGroup(rows[ps[k]].siteId, rows[ps[k]].siteName, AttachedTo(rows, i + 1, order[k], showInactive))
    {
      if order[k] == s {
        assert AttachedTo(rows, i + 1, s, showInactive) == AttachedTo(rows, i, s, showInactive) + [Entry(rows[i])];
      } else {
        assert AttachedTo(rows, i + 1, order[k], showInactive) == AttachedTo(rows, i, order[k], showInactive);
      }
    }
  }

  /** A site none of the first `n` rows belongs to has no locations attached among them. */
  lemma {:induction false} NoEarlierRows(rows: seq<SiteRow>, n: nat, siteId: int, showInactive: bool)
    requires n <= |rows| && siteId !in SiteIds(rows)[..n]
    ensures AttachedTo(rows, n, siteId, showInactive) == []
  {
    if n > 0 {
      assert SiteIds(rows)[..n - 1] == SiteIds(rows)[..n][..n - 1];
      assert SiteIds(rows)[..n][n - 1] == rows[n - 1].siteId;
      NoEarlierRows(rows, n - 1, siteId, showInactive);
    }
  }

  lemma SameGroups(groups: seq<SiteGroup>, rows: seq<SiteRow>, showInactive: bool)
    requires var ps := FirstPositions(SiteIds(rows), |rows|);
             && |groups| == |ps|
             && forall k :: 0 <= k < |groups| ==>
                  groups[k] == SiteGroup(rows[ps[k]].siteId, rows[ps[k]].siteName,
                                         AttachedTo(rows, |rows|, rows[ps[k]].siteId, showInactive))
    ensures groups == Grouped(rows, showInactive)
  {
  }
}
