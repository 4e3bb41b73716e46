/** The shipped catalog. */
module SlashCatalog {
  import opened SlashPalette

  /** Commands in palette order with the parameters they declare. */
  const CATALOG: seq<Entry> := [
    Entry("help", []), Entry("new", []), Entry("switch", []), Entry("delete", []), Entry("clear", []),
    Entry("plan", []), Entry("agents", []), Entry("usage", []), Entry("trace", []), Entry("agent", []),
    Entry("stop", []), Entry("force-stop", []), Entry("compact", ["agent"]), Entry("connectors", []),
    Entry("settings", ["panel"])]

  lemma SessionEntries()
    ensures SimpleCatalog(CATALOG[..8])
  {
    assert SimpleName("help") && SimpleName("new") && SimpleName("switch") && SimpleName("delete");
    assert SimpleName("clear") && SimpleName("plan") && SimpleName("agents") && SimpleName("usage");
  }

  lemma RunEntries()
    ensures SimpleCatalog(CATALOG[8..12])
  {
    assert SimpleName("trace") && SimpleName("agent") && SimpleName("stop") && SimpleName("force-stop");
  }

  lemma ViewEntries()
    ensures SimpleCatalog(CATALOG[12..])
  {
    assert SimpleName("compact") && SimpleName("connectors") && SimpleName("settings") && SimpleName("panel");
    assert SimpleName("agent");
  }

  /** The shipped catalog meets what the results on the palette ask of one. */
  lemma CatalogIsSimple()
    ensures SimpleCatalog(CATALOG)
  {
    SessionEntries();
    RunEntries();
    ViewEntries();
    assert forall i :: 0 <= i < 8 ==> CATALOG[i] == CATALOG[..8][i];
    assert forall i :: 8 <= i < 12 ==> CATALOG[i] == CATALOG[8..12][i - 8];
    assert forall i :: 12 <= i < |CATALOG| ==> CATALOG[i] == CATALOG[12..][i - 12];
  }
}
