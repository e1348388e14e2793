/**
 * The sponsor pages: the label and badge colour of a sponsor category, and the grouping of
 * the active sponsors into main sponsors, technical partners and collaborations.
 */
module Sponsors {
  import opened Wrappers
  import opened Seqs

  /** A row of the `sponsor` table. */
  datatype Sponsor = Sponsor(
    id: string,
    nome: string,
    logoUrl: Option<string>,
    sitoWeb: Option<string>,
    categoria: string,
    descrizione: Option<string>,
    attivo: bool)

  const MainSponsor: string := "main_sponsor"
  const TechnicalPartner: string := "technical_partner"
  const Collaboration: string := "collaboration"

  /** One of the three categories the pages know. */
  predicate IsKnownCategory(categoria: string) {
    categoria == MainSponsor || categoria == TechnicalPartner || categoria == Collaboration
  }

  /** `getCategoryLabel`: the known categories get their own labels, anything else "Sponsor". */
  function CategoryLabel(categoria: string): (text: string)
    ensures categoria == MainSponsor ==> text == "Main Sponsor"
    ensures categoria == TechnicalPartner ==> text == "Partner Tecnico"
    ensures categoria == Collaboration ==> text == "Collaborazione"
    ensures text == "Sponsor" <==> !IsKnownCategory(categoria)
  {
    if categoria == MainSponsor then "Main Sponsor"
    else if categoria == TechnicalPartner then "Partner Tecnico"
    else if categoria == Collaboration then "Collaborazione"
    else "Sponsor"
  }

  /** `getCategoryColor`: the known categories get their own colours, anything else gray. */
  function CategoryColor(categoria: string): (color: string)
    ensures categoria == MainSponsor ==> color == "bg-yellow-600 hover:bg-yellow-700"
    ensures categoria == TechnicalPartner ==> color == "bg-blue-600 hover:bg-blue-700"
    ensures categoria == Collaboration ==> color == "bg-green-600 hover:bg-green-700"
    ensures color == "bg-gray-600 hover:bg-gray-700" <==> !IsKnownCategory(categoria)
  {
    if categoria == MainSponsor then "bg-yellow-600 hover:bg-yellow-700"
    else if categoria == TechnicalPartner then "bg-blue-600 hover:bg-blue-700"
    else if categoria == Collaboration then "bg-green-600 hover:bg-green-700"
    else "bg-gray-600 hover:bg-gray-700"
  }

  /**
   * `sponsors?.filter((s) => s.categoria === categoria) || []`: the sponsors of one
   * category, in query order; none when the query gave no data.
   */
  function Group(sponsors: Option<seq<Sponsor>>, categoria: string): (g: seq<Sponsor>)
    ensures sponsors.None? ==> g == []
    ensures forall k :: 0 <= k < |g| ==> g[k].categoria == categoria
    ensures sponsors.Some? ==> forall k :: 0 <= k < |sponsors.value| && sponsors.value[k].categoria == categoria ==>
                                 sponsors.value[k] in g
  {
    if sponsors.Some? then Filter(sponsors.value, (s: Sponsor) => s.categoria == categoria) else []
  }

  /** Each group keeps the order of the query (by category, then as the store returns them). */
  lemma GroupKeepsOrder(sponsors: seq<Sponsor>, categoria: string)
    ensures IsSubseq(Group(Some(sponsors), categoria), sponsors)
  {
    FilterIsSubseq(sponsors, (s: Sponsor) => s.categoria == categoria);
  }

  /** The three groups of the sponsor pages share no sponsor. */
  lemma GroupsDisjoint(sponsors: Option<seq<Sponsor>>)
    ensures forall s :: s in Group(sponsors, MainSponsor) ==> s !in Group(sponsors, TechnicalPartner)
    ensures forall s :: s in Group(sponsors, MainSponsor) ==> s !in Group(sponsors, Collaboration)
    ensures forall s :: s in Group(sponsors, TechnicalPartner) ==> s !in Group(sponsors, Collaboration)
  {
  }

  /** A sponsor of any other category appears in no group. */
  lemma UnknownCategoryInNoGroup(sponsors: Option<seq<Sponsor>>, s: Sponsor)
    requires !IsKnownCategory(s.categoria)
    ensures s !in Group(sponsors, MainSponsor)
    ensures s !in Group(sponsors, TechnicalPartner)
    ensures s !in Group(sponsors, Collaboration)
  {
  }

  /** Every sponsor of a known category appears in the group of its category. */
  lemma KnownCategoryInItsGroup(sponsors: seq<Sponsor>, k: nat)
    requires k < |sponsors| && IsKnownCategory(sponsors[k].categoria)
    ensures sponsors[k] in Group(Some(sponsors), sponsors[k].categoria)
  {
  }

  /**
   * `.eq("attivo", true)`: the rows the sponsor query asks for are the active ones, in table
   * order (the ordering by category is not modelled).
   */
  function ActiveSponsors(table: seq<Sponsor>): (r: seq<Sponsor>)
    ensures forall k :: 0 <= k < |r| ==> r[k].attivo
    ensures forall k :: 0 <= k < |table| && table[k].attivo ==> table[k] in r
  {
    Filter(table, (s: Sponsor) => s.attivo)
  }

  /** A sponsor whose row is switched off appears in no group of the queried rows. */
  lemma InactiveSponsorHidden(table: seq<Sponsor>, s: Sponsor, categoria: string)
    requires !s.attivo
    ensures s !in Group(Some(ActiveSponsors(table)), categoria)
  {
  }

  /** The three groups a sponsor section shows. */
  datatype SponsorGroups = SponsorGroups(main: seq<Sponsor>, technical: seq<Sponsor>, collaborations: seq<Sponsor>)

  /**
   * The home-page section's groups: those of the query's rows when it answered with data,
   * otherwise (an error, or an exception from the client) those of the built-in fallback list.
   */
  function SectionSponsors(query: Option<seq<Sponsor>>, fallback: seq<Sponsor>): (g: SponsorGroups)
    ensures query.Some? ==> g == SponsorGroups(Group(query, MainSponsor), Group(query, TechnicalPartner),
                                               Group(query, Collaboration))
    ensures query.None? ==> g == SponsorGroups(Group(Some(fallback), MainSponsor),
                                               Group(Some(fallback), TechnicalPartner),
                                               Group(Some(fallback), Collaboration))
  {
    var sponsors := if query.Some? then query.value else fallback;
    SponsorGroups(Group(Some(sponsors), MainSponsor), Group(Some(sponsors), TechnicalPartner),
                  Group(Some(sponsors), Collaboration))
  }
}
