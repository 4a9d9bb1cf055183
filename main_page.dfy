/**
 * The main menu: the language picker's route choice and the settings
 * drop-down's open state.
 */
module MainMenu {
  import opened Wrappers
  import opened Text

  /** The `switch` of `handlePlayClick` on an already lower-cased name. */
  function Switch(name: string): (r: string)
    ensures name == "c#" ==> r == "/Csharp"
    ensures name != "c#" ==> r == "/" + name
  {
    if name == "java" then "/java"
    else if name == "python" then "/python"
    else if name == "javascript" then "/javascript"
    else if name == "c++" then "/c++"
    else if name == "c#" then "/Csharp"
    else if name == "brainrot" then "/brainrot"
    else "/" + name
  }

  /** `handlePlayClick`: the switch applied to the lower-cased name of the selected box. */
  function Route(selectedBox: string): (r: string)
    ensures |r| >= 1 && r[0] == '/'
    ensures ToLower(selectedBox) == "c#" ==> r == "/Csharp"
    ensures ToLower(selectedBox) != "c#" ==> r == "/" + ToLower(selectedBox)
  {
    Switch(ToLower(selectedBox))
  }

  /** The route ignores the case of the selected name. */
  lemma RouteIgnoresCase(selectedBox: string)
    ensures Route(ToLower(selectedBox)) == Route(selectedBox)
  {
    ToLowerIdempotent(selectedBox);
  }

  /** The settings drop-down's state. */
  class MainPage {
    var showSettings: bool
    var logoutCalls: nat
    var navigatedTo: Option<string>

    constructor ()
      ensures !showSettings && logoutCalls == 0 && navigatedTo == None
    {
      showSettings, logoutCalls, navigatedTo := false, 0, None;
    }

    /** The gear button opens a closed drop-down and closes an open one. */
    method HandleSettingsClick()
      modifies this`showSettings
      ensures showSettings == !old(showSettings)
    {
      showSettings := !showSettings;
    }

    /** Logging out asks the server to end the session, closes the drop-down and goes to the login page. */
    method HandleLogout()
      modifies this
      ensures !showSettings && logoutCalls == old(logoutCalls) + 1 && navigatedTo == Some("/login")
    {
      logoutCalls := logoutCalls + 1;
      showSettings := false;
      navigatedTo := Some("/login");
    }
  }
}
