/**
 * Team identity: whether a fixture involves the club, by case-insensitive containment of one
 * of the club's names, and which of the club's Serie D rosters a fixture belongs to.
 */
module TeamIdentity {
  import opened Text

  /** The names under which the club appears in the championships it plays. */
  const TargetTeamNames: seq<string> :=
    ["VITALFRUTTA VolleyClub TS", "Volley Club", "Volley Club TS", "ROSSO Volley Club TS"]

  /** One name of the club appears, ignoring case, in the home or in the away team name. */
  predicate NamesClub(home: string, away: string, alias: string) {
    Includes(Lower(home), Lower(alias)) || Includes(Lower(away), Lower(alias))
  }

  /** `aliases.some(...)`: some alias names the club in this fixture. */
  function SomeAlias(aliases: seq<string>, home: string, away: string): (r: bool)
    ensures r <==> exists k :: 0 <= k < |aliases| && NamesClub(home, away, aliases[k])
    decreases |aliases|
  {
    if aliases == [] then false
    else NamesClub(home, away, aliases[0]) || SomeAlias(aliases[1..], home, away)
  }

  /**
   * `isMyTeam`: the fixture involves the club. Two of the four names decide: "Volley Club" occurs
   * in "Volley Club TS" and in "ROSSO Volley Club TS", but not in "VITALFRUTTA VolleyClub TS"
   * (written without a space).
   */
  predicate IsMyTeam(home: string, away: string)
    ensures IsMyTeam(home, away) <==>
      || Includes(Lower(home), "volley club") || Includes(Lower(away), "volley club")
      || Includes(Lower(home), "vitalfrutta volleyclub ts") || Includes(Lower(away), "vitalfrutta volleyclub ts")
  {
    LowerTargetTeamNames();
    LongerNamesHoldVolleyClub(Lower(home));
    LongerNamesHoldVolleyClub(Lower(away));
    SomeAlias(TargetTeamNames, home, away)
  }

  /** Which side carries the club's name does not matter. */
  lemma IsMyTeamSymmetric(home: string, away: string)
    ensures IsMyTeam(home, away) == IsMyTeam(away, home)
  {
  }

  /** The test depends on the names only through their lower-case forms. */
  lemma IsMyTeamIgnoresCase(home: string, away: string)
    ensures IsMyTeam(home, away) == IsMyTeam(Lower(home), Lower(away))
  {
    LowerIdempotent(home);
    LowerIdempotent(away);
  }

  lemma LowerTargetTeamNames()
    ensures Lower(TargetTeamNames[0]) == "vitalfrutta volleyclub ts"
    ensures Lower(TargetTeamNames[1]) == "volley club"
    ensures Lower(TargetTeamNames[2]) == "volley club ts"
    ensures Lower(TargetTeamNames[3]) == "rosso volley club ts"
  {
    LowerFirstName();
    LowerSecondName();
    LowerThirdName();
    LowerFourthName();
  }

  lemma LowerFirstName()
    ensures Lower(TargetTeamNames[0]) == "vitalfrutta volleyclub ts"
  {
  }

  lemma LowerSecondName()
    ensures Lower(TargetTeamNames[1]) == "volley club"
  {
  }

  lemma LowerThirdName()
    ensures Lower(TargetTeamNames[2]) == "volley club ts"
  {
  }

  lemma LowerFourthName()
    ensures Lower(TargetTeamNames[3]) == "rosso volley club ts"
  {
  }

  /** The test spelled out name by name, in lower case. */
  lemma IsMyTeamByName(home: string, away: string)
    ensures IsMyTeam(home, away) <==>
      || Includes(Lower(home), "vitalfrutta volleyclub ts") || Includes(Lower(away), "vitalfrutta volleyclub ts")
      || Includes(Lower(home), "volley club") || Includes(Lower(away), "volley club")
      || Includes(Lower(home), "volley club ts") || Includes(Lower(away), "volley club ts")
      || Includes(Lower(home), "rosso volley club ts") || Includes(Lower(away), "rosso volley club ts")
  {
    LowerTargetTeamNames();
  }

  /** A name that holds "volley club ts" (with or without "rosso ") holds "volley club". */
  lemma LongerNamesHoldVolleyClub(s: string)
    ensures Includes(s, "volley club ts") ==> Includes(s, "volley club")
    ensures Includes(s, "rosso volley club ts") ==> Includes(s, "volley club")
  {
    assert OccursAt("volley club ts", "volley club", 0);
    assert OccursAt("rosso volley club ts", "volley club", 6);
    if Includes(s, "volley club ts") {
      IncludesTransitive(s, "volley club ts", "volley club");
    }
    if Includes(s, "rosso volley club ts") {
      IncludesTransitive(s, "rosso volley club ts", "volley club");
    }
  }
}
