/** What a terminal-UI update hands back to the runtime (the bubbletea `tea.Cmd` values the program uses). */
module Tea {
  /** Nothing to do, stop the program, or deliver another tick later. */
  datatype Cmd = NoCmd | QuitCmd | TickCmd
}
