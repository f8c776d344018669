/** The lead detail view: the colour of the progress bar and the tabs offered. */
module LeadView {
  import opened Client

  datatype Colour = Green | Yellow | Red

  /** Position on the scale from red (0) to green (2). */
  function Rank(c: Colour): nat
  {
    match c
      case Red => 0
      case Yellow => 1
      case Green => 2
  }

  /** `getProbColor`: green from 75, yellow from 40, red below. */
  function ProbColour(p: int): (c: Colour)
    ensures c == Green <==> p >= 75
    ensures c == Yellow <==> 40 <= p < 75
    ensures c == Red <==> p < 40
  {
    if p >= 75 then Green else if p >= 40 then Yellow else Red
  }

  /** Raising the value never moves the colour toward red. */
  lemma ProbColourMonotone(p: int, q: int)
    requires p <= q
    ensures Rank(ProbColour(p)) <= Rank(ProbColour(q))
  {
  }

  /** The bar: its colour and its width in percent, both from `progress`. */
  datatype Bar = Bar(colour: Colour, widthPercent: int)

  function ProgressBar(lead: Lead): (b: Bar)
    ensures b.colour == ProbColour(lead.progress)
    ensures b.widthPercent == lead.progress
  {
    Bar(ProbColour(lead.progress), lead.progress)
  }

  /** The bar ignores `probability_of_completion`. */
  lemma BarIgnoresProbability(lead: Lead, probability: int)
    ensures ProgressBar(lead.(probability := probability)) == ProgressBar(lead)
  {
  }

  /** The tabs offered: overview always, resources and planning for won leads only. */
  function Tabs(lead: Lead): (tabs: seq<string>)
    ensures |tabs| >= 1 && tabs[0] == "overview"
    ensures "resources" in tabs <==> lead.status == "won"
  {
    if lead.status == "won" then ["overview", "resources"] else ["overview"]
  }
}
