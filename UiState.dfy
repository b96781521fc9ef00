/** The dashboard's state (src/ui/mod.rs): what the renderer is given to draw. */
module UiState {
  import opened Wrappers

  /** The fetched home-screen data the banner shows: a notice and a list of tips. */
  datatype Announcement = Announcement(noticeHtml: string, tips: seq<string>)

  datatype AppState = AppState(
    shouldQuit: bool,
    selectedTab: nat,
    homeData: Option<Announcement>)

  /** `AppState::new()`: running, on the first tab, with nothing fetched yet. */
  function New(): (s: AppState)
    ensures !s.shouldQuit
    ensures s.selectedTab == 0
    ensures s.homeData == None
  {
    AppState(false, 0, None)
  }
}
