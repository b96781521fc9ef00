/** The dashboard's entry point for drawing (src/ui/mod.rs). */
module Ui {
  import opened Wrappers
  import opened UiState
  import Home

  /** `ui::render`: hands the same state to the home screen and draws what it draws. */
  function Render(state: AppState): (f: Home.Frame)
    ensures f == Home.Render(state)
  {
    Home.Render(state)
  }

  /** The first frame after start-up shows the sidebar on the first tab and no banner. */
  lemma InitialFrame()
    ensures Render(New()) == Home.Frame(Home.Sidebar(Home.SIDEBAR_WIDTH, 0), None)
  {
  }
}
