/**
 * The test inside `warn_if_in_protected_folders`: is the install folder inside
 * one of the protected Windows locations? Zones come from environment lookups,
 * so some are unset (`None`); unset and empty zones are skipped.
 */
module Zones {
  import opened Wrappers
  import opened Text

  /** A folder is protected when some set, non-empty zone is a prefix of it, ignoring case. */
  function IsProtected(folder: string, zones: seq<Option<string>>): (r: bool)
    ensures r <==> exists i :: 0 <= i < |zones| && zones[i].Some? && zones[i].value != ""
                               && StartsWith(Lower(folder), Lower(zones[i].value))
  {
    if zones == [] then false
    else
      var z := zones[0];
      (z.Some? && z.value != "" && StartsWith(Lower(folder), Lower(z.value)))
      || IsProtected(folder, zones[1..])
  }

  /** The zones with every set entry upper-cased. */
  function UpperZones(zones: seq<Option<string>>): (u: seq<Option<string>>)
    ensures |u| == |zones|
    ensures forall i :: 0 <= i < |zones| ==>
              u[i] == (if zones[i].Some? then Some(Upper(zones[i].value)) else None)
  {
    seq(|zones|, i requires 0 <= i < |zones| =>
      if zones[i].Some? then Some(Upper(zones[i].value)) else None)
  }

  /** Changing the case of the folder path does not change the verdict. */
  lemma FolderCaseIgnored(folder: string, zones: seq<Option<string>>)
    ensures IsProtected(Upper(folder), zones) == IsProtected(folder, zones)
    ensures IsProtected(Lower(folder), zones) == IsProtected(folder, zones)
  {
    LowerForgetsCase(folder);
  }

  /** Changing the case of the zones does not change the verdict. */
  lemma ZoneCaseIgnored(folder: string, zones: seq<Option<string>>)
    ensures IsProtected(folder, UpperZones(zones)) == IsProtected(folder, zones)
  {
    var u := UpperZones(zones);
    forall i | 0 <= i < |zones| && zones[i].Some?
      ensures Lower(u[i].value) == Lower(zones[i].value)
      ensures u[i].value == "" <==> zones[i].value == ""
    {
      LowerForgetsCase(zones[i].value);
    }
    if IsProtected(folder, zones) {
      var i :| 0 <= i < |zones| && zones[i].Some? && zones[i].value != ""
                && StartsWith(Lower(folder), Lower(zones[i].value));
      assert u[i].Some? && u[i].value != "" && StartsWith(Lower(folder), Lower(u[i].value));
    }
    if IsProtected(folder, u) {
      var i :| 0 <= i < |u| && u[i].Some? && u[i].value != ""
                && StartsWith(Lower(folder), Lower(u[i].value));
      assert zones[i].Some? && zones[i].value != "" && StartsWith(Lower(folder), Lower(zones[i].value));
    }
  }

  /** An unset or empty zone never flags anything, wherever it stands in the list. */
  lemma UnsetZoneIgnored(folder: string, before: seq<Option<string>>, after: seq<Option<string>>, unset: Option<string>)
    requires unset == None || unset == Some("")
    ensures IsProtected(folder, before + [unset] + after) == IsProtected(folder, before + after)
  {
    var with := before + [unset] + after;
    var without := before + after;
    if IsProtected(folder, with) {
      var i :| 0 <= i < |with| && with[i].Some? && with[i].value != ""
                && StartsWith(Lower(folder), Lower(with[i].value));
      var j := if i < |before| then i else i - 1;
      assert without[j] == with[i];
    }
    if IsProtected(folder, without) {
      var j :| 0 <= j < |without| && without[j].Some? && without[j].value != ""
                && StartsWith(Lower(folder), Lower(without[j].value));
      var i := if j < |before| then j else j + 1;
      assert with[i] == without[j];
    }
  }

  /** A case-sensitive prefix stays a prefix once both sides are lowered. */
  lemma PrefixSurvivesLowering(folder: string, zone: string)
    requires StartsWith(folder, zone)
    ensures StartsWith(Lower(folder), Lower(zone))
  {
    assert forall i :: 0 <= i < |zone| ==> folder[i] == zone[i];
  }

  /**
   * The match is on characters, not path components: a sibling folder whose
   * name merely begins with a zone's last component is flagged too.
   */
  lemma PrefixIsNotComponentwise()
    ensures IsProtected("C:\\Users2\\SkyrimVR", [Some("C:\\Users")])
    ensures IsProtected("C:\\Program Files (x86)\\Steam", [None, Some("C:\\Program Files")])
  {
    PrefixSurvivesLowering("C:\\Users2\\SkyrimVR", "C:\\Users");
    PrefixSurvivesLowering("C:\\Program Files (x86)\\Steam", "C:\\Program Files");
    assert [None, Some("C:\\Program Files")][1] == Some("C:\\Program Files");
  }

  /** A folder on another drive is not flagged; unset and empty zones flag nothing. */
  lemma OtherDriveNotProtected()
    ensures !IsProtected("D:\\SteamLibrary\\SkyrimVR", [None, Some(""), Some("C:\\Users")])
  {
    assert Lower("D:\\SteamLibrary\\SkyrimVR")[0] == 'd';
    assert Lower("C:\\Users")[0] == 'c';
  }
}
