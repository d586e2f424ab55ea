/**
 * The whitelist of a clean SkyrimVR install folder and the comparison of one
 * folder listing against it (`verify_files`).
 *
 * Names are compared exactly, as the listing produces them; entries that are
 * folders (`Data`) are matched by name only, their contents are not compared.
 */
module Reconcile {

  /** The executable whose presence marks a folder as a SkyrimVR install. */
  const SENTINEL: string := "SkyrimVR.exe"

  /** Required top-level files and folders of the base game. */
  const BASE_GAME_FILES: set<string> := {
    "SkyrimVR.exe",
    "steam_api64.dll",
    "binkw64.dll",
    "atimgpud.dll",
    "High.ini",
    "Medium.ini",
    "Low.ini",
    "Skyrim.ini",
    "openvr_api.dll",
    "installscript.vdf",
    "Data"
  }

  /** The pair `verify_files` returns, in its order: extra first, then missing. */
  datatype Reconciliation = Reconciliation(extra: set<string>, missing: set<string>)

  /**
   * Classifies one listing: `extra` holds the listed names that are not
   * whitelisted, `missing` the whitelisted names that are not listed.
   */
  function VerifyFiles(found: set<string>): (r: Reconciliation)
    ensures r.extra <= found && r.extra !! BASE_GAME_FILES
    ensures found - r.extra <= BASE_GAME_FILES
    ensures r.missing <= BASE_GAME_FILES && r.missing !! found
    ensures BASE_GAME_FILES - r.missing <= found
    ensures r.extra !! r.missing
    ensures r.extra == {} && r.missing == {} <==> found == BASE_GAME_FILES
  {
    Reconciliation(found - BASE_GAME_FILES, BASE_GAME_FILES - found)
  }

  /**
   * The four inclusions in VerifyFiles' contract pin the result down: any pair
   * satisfying them is the one VerifyFiles returns.
   */
  lemma VerifyFilesUnique(found: set<string>, r: Reconciliation)
    requires r.extra <= found && r.extra !! BASE_GAME_FILES
    requires found - r.extra <= BASE_GAME_FILES
    requires r.missing <= BASE_GAME_FILES && r.missing !! found
    requires BASE_GAME_FILES - r.missing <= found
    ensures r == VerifyFiles(found)
  {
    var v := VerifyFiles(found);
    assert r.extra == v.extra by {
      forall n | n in v.extra ensures n in r.extra {
        assert n in found - r.extra ==> n in BASE_GAME_FILES;
      }
    }
    assert r.missing == v.missing by {
      forall n | n in v.missing ensures n in r.missing {
        assert n in BASE_GAME_FILES - r.missing ==> n in found;
      }
    }
  }

  /**
   * Re-listing a folder from which every extra entry was removed finds no
   * extra entry and the same missing ones: removal never repairs or causes a
   * missing file.
   */
  lemma RelistAfterFullRemoval(found: set<string>)
    ensures VerifyFiles(found - VerifyFiles(found).extra).extra == {}
    ensures VerifyFiles(found - VerifyFiles(found).extra).missing == VerifyFiles(found).missing
  {
    var kept := found - VerifyFiles(found).extra;
    assert kept == found * BASE_GAME_FILES;
  }

  /** A modded install: two extra entries are reported, nothing is missing. */
  lemma ModdedInstallExample()
    ensures VerifyFiles(BASE_GAME_FILES + {"mod1.dll", "readme.txt"})
            == Reconciliation({"mod1.dll", "readme.txt"}, {})
  {
    var found := BASE_GAME_FILES + {"mod1.dll", "readme.txt"};
    assert found - BASE_GAME_FILES == {"mod1.dll", "readme.txt"};
  }

  /** The sentinel executable is itself whitelisted, so no cleanup deletes it. */
  lemma SentinelIsWhitelisted()
    ensures SENTINEL in BASE_GAME_FILES
  {
  }
}
