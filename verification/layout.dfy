/** The layout's route mapping (src/Layout.jsx): which navigation bar the
    current path gets. */
module Layout {

  datatype NavFlags = NavFlags(isChat: bool, isActivity: bool)

  /** The home page, the activity page and the ended-chats page get no chat
      bar; only the activity page gets the activity bar; every other path
      (a chat session) gets the chat bar. */
  function Flags(pathname: string): (r: NavFlags)
    ensures r.isActivity <==> pathname == "/activity"
    ensures r.isChat <==> pathname != "/" && pathname != "/activity" && pathname != "/endedChats"
    ensures !(r.isChat && r.isActivity)
  {
    if pathname == "/" then NavFlags(false, false)
    else if pathname == "/activity" then NavFlags(false, true)
    else if pathname == "/endedChats" then NavFlags(false, false)
    else NavFlags(true, false)
  }
}
