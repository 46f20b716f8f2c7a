/** The action buttons (components/ActionPanel.tsx): which of Start Over, Enhance and
    Download are enabled, and the Enhance button's label and tooltip, as functions of
    the three flags the panel receives. */
module ActionPanel {
  import opened Wrappers

  /** A rendered button: whether it is disabled, its visible text and its tooltip (if any). */
  datatype Button = Button(disabled: bool, text: string, title: Option<string>)

  datatype Panel = Panel(startOver: Button, enhance: Button, download: Button)

  const SelectModeFirst := "Please select an enhancement mode first"

  /** The panel for the given props. Enhance is disabled while enhancing or with no mode;
      Download is disabled until there is a result or while enhancing; Start Over is
      always enabled. */
  function Render(isEnhancing: bool, isEnhanced: bool, isModeSelected: bool): (p: Panel)
    ensures !p.startOver.disabled
    ensures p.enhance.disabled <==> isEnhancing || !isModeSelected
    ensures p.download.disabled <==> !isEnhanced || isEnhancing
    ensures p.enhance.title == Some(SelectModeFirst) <==> !isModeSelected
    ensures p.enhance.text == "Enhancing..." <==> isEnhancing
  {
    Panel(
      Button(false, "Start Over", Some("Start Over")),
      Button(isEnhancing || !isModeSelected,
             if isEnhancing then "Enhancing..." else "Enhance",
             Some(if !isModeSelected then SelectModeFirst else "Enhance Image")),
      Button(!isEnhanced || isEnhancing, "Download", None))
  }

  /** While an enhancement is running only Start Over can be pressed. */
  lemma NothingButStartOverWhileEnhancing(isEnhanced: bool, isModeSelected: bool)
    ensures Render(true, isEnhanced, isModeSelected).enhance.disabled
    ensures Render(true, isEnhanced, isModeSelected).download.disabled
    ensures !Render(true, isEnhanced, isModeSelected).startOver.disabled
  {
  }
}
