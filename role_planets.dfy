/** The "Role/Skills Planets" cards (src/components/RolePlanets.tsx): three
    planet cards, at most one of them flipped over to show its details; a
    click flips a card over, or back when it is the one already flipped. */
module RolePlanets {

  datatype Option<T> = None | Some(value: T)

  /** The front of a card. */
  datatype Planet = Planet(id: string, title: string, subtitle: string)

  /** The back of a card. */
  datatype PlanetDetails = PlanetDetails(title: string, bullets: seq<string>)

  function Planets(): seq<Planet>
  {
    [ Planet("design", "Design Planet", "UI/UX • Prototyping • Accessibility"),
      Planet("dev", "Development Planet", "Frontend • Systems"),
      Planet("strategy", "Strategy Planet", "Product thinking • Writing") ]
  }

  /** The `details` record, keyed by planet id. Long bullet texts are split
      into short literals to keep verification fast. */
  function Details(): map<string, PlanetDetails>
  {
    map[
      "design" := PlanetDetails("Design in practice", [
        "User research → " + "wireframes → " + "prototypes in " + "Figma",
        "Accessibility-" + "first (contrast, " + "semantics, " + "focus order)",
        "Design systems " + "and tokens for " + "consistency"]),
      "dev" := PlanetDetails("Development " + "in practice", [
        "React/TypeScript" + " frontends with " + "performance " + "budgets",
        "Firebase/Node " + "backends; " + "structured APIs " + "and data flow",
        "Testing and " + "CI-friendly " + "component " + "architecture"]),
      "strategy" := PlanetDetails("Strategy in " + "practice", [
        "Product " + "discovery and " + "scope shaping " + "with stakeholders",
        "Clear specs, " + "measurable " + "outcomes, and " + "iteration loops",
        "Documentation " + "and crisp UX " + "writing for " + "clarity"])
    ]
  }

  /** The card's heading, `details[id]?.title || 'Details'`: the entry's
      title, or "Details" when the id has no entry or its title is empty. */
  function DetailsTitle(details: map<string, PlanetDetails>, id: string): (title: string)
    ensures title != ""
    ensures id in details && details[id].title != "" ==> title == details[id].title
    ensures !(id in details && details[id].title != "") ==> title == "Details"
  {
    if id in details && details[id].title != "" then details[id].title else "Details"
  }

  /** The card's bullet list, `details[id]?.bullets || []`: the entry's
      bullets, or none when the id has no entry (an empty array is truthy,
      so an entry's empty list is kept as it is). */
  function DetailsBullets(details: map<string, PlanetDetails>, id: string): (bullets: seq<string>)
    ensures id in details ==> bullets == details[id].bullets
    ensures id !in details ==> bullets == []
  {
    if id in details then details[id].bullets else []
  }

  /** The click handler's update `prev === id ? null : id`. */
  function NextFlipped(prev: Option<string>, id: string): (next: Option<string>)
    ensures next == Some(id) <==> prev != Some(id)
    ensures next == None <==> prev == Some(id)
  {
    if prev == Some(id) then None else Some(id)
  }

  /** How many of `ids` are shown flipped when the state is `flipped`. */
  function FlippedCount(flipped: Option<string>, ids: seq<string>): nat
  {
    if ids == [] then 0
    else (if flipped == Some(ids[0]) then 1 else 0) + FlippedCount(flipped, ids[1..])
  }

  function Ids(planets: seq<Planet>): (ids: seq<string>)
    ensures |ids| == |planets| && forall i :: 0 <= i < |planets| ==> ids[i] == planets[i].id
  {
    seq(|planets|, i requires 0 <= i < |planets| => planets[i].id)
  }

  /** With distinct ids, a single optional id shows at most one card flipped,
      and exactly one when it names one of the cards. */
  lemma {:induction false} AtMostOneFlipped(flipped: Option<string>, ids: seq<string>)
    requires forall i, j :: 0 <= i < j < |ids| ==> ids[i] != ids[j]
    ensures FlippedCount(flipped, ids) <= 1
    ensures FlippedCount(flipped, ids) == 1 <==> flipped.Some? && flipped.value in ids
  {
    if ids != [] {
      AtMostOneFlipped(flipped, ids[1..]);
      if flipped == Some(ids[0]) {
        assert ids[0] !in ids[1..] by {
          forall k | 0 <= k < |ids| - 1 ensures ids[1..][k] != ids[0] {
            assert ids[1..][k] == ids[k + 1];
          }
        }
      } else {
        assert flipped.Some? && flipped.value in ids ==> flipped.value in ids[1..];
      }
    }
  }

  /** The planet ids are distinct, so the page never shows two cards flipped. */
  lemma PlanetsShowAtMostOneFlipped(flipped: Option<string>)
    ensures FlippedCount(flipped, Ids(Planets())) <= 1
  {
    AtMostOneFlipped(flipped, Ids(Planets()));
  }

  /** Clicking A, then B twice (B another card) leaves nothing flipped rather
      than returning to A. */
  lemma ClickSequenceClears(a: string, b: string)
    requires a != b
    ensures NextFlipped(NextFlipped(NextFlipped(None, a), b), b) == None
  {
  }

  /** Every planet has a details entry with a non-empty title, so neither
      fallback ever shows on the page's own cards. */
  lemma EveryPlanetHasDetails()
    ensures forall i :: 0 <= i < |Planets()| ==>
      Planets()[i].id in Details()
      && DetailsTitle(Details(), Planets()[i].id) == Details()[Planets()[i].id].title != "Details"
      && DetailsBullets(Details(), Planets()[i].id) == Details()[Planets()[i].id].bullets
      && |DetailsBullets(Details(), Planets()[i].id)| == 3
  {
    var p := Planets();
    var d := Details();
    assert p[0].id == "design" && p[1].id == "dev" && p[2].id == "strategy";
    assert d["design"].title == "Design in practice";
    assert d["dev"].title == "Development " + "in practice";
    assert d["strategy"].title == "Strategy in " + "practice";
  }

  /** The card flip state: the id of the flipped card, if any. */
  class FlipState {
    var flipped: Option<string>

    /** Initially no card is flipped. */
    constructor ()
      ensures flipped == None
    {
      flipped := None;
    }

    /** A click on card `id`: it becomes the flipped card unless it already
        was, in which case no card is flipped. */
    method Click(id: string)
      modifies this
      ensures flipped == NextFlipped(old(flipped), id)
      ensures flipped == Some(id) <==> old(flipped) != Some(id)
      ensures flipped == None <==> old(flipped) == Some(id)
    {
      flipped := if flipped == Some(id) then None else Some(id);
    }
  }
}
