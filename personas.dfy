/** The five judging personas a pitch can be judged by, and their wire ids. */
module Personas {
  import opened Wrappers

  datatype Persona = Investor | Advisor | Healthcare | EdTech | Tech

  /** The ids in the order the backend lists them. */
  const Ids: seq<string> := ["investor", "advisor", "healthcare", "edtech", "tech"]

  function Id(p: Persona): (id: string)
    ensures id in Ids
  {
    match p
    case Investor => "investor"
    case Advisor => "advisor"
    case Healthcare => "healthcare"
    case EdTech => "edtech"
    case Tech => "tech"
  }

  /** Reads a persona id; any other string is no persona. */
  function FromId(s: string): (r: Option<Persona>)
    ensures r.Some? <==> s in Ids
    ensures r.Some? ==> Id(r.value) == s
  {
    if s == "investor" then Some(Investor)
    else if s == "advisor" then Some(Advisor)
    else if s == "healthcare" then Some(Healthcare)
    else if s == "edtech" then Some(EdTech)
    else if s == "tech" then Some(Tech)
    else None
  }

  /** Every persona's id reads back as that persona, so no two personas share an id. */
  lemma IdRoundTrip(p: Persona)
    ensures FromId(Id(p)) == Some(p)
  {
  }
}
