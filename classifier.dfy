/** The case-insensitive "is this a game" heuristic of the terminal view. */
module Classifier {
  import opened Text

  /** The 21 indicator tokens, in the order the terminal view lists them. */
  const GameIndicators: seq<string> := [
    "game", "steam", "epic", "uplay", "origin", "riot", "valorant", "league", "csgo", "cs2",
    "dota", "apex", "fortnite", "minecraft", "roblox", "gta", "unity", "unreal", "dx11", "dx12",
    "vulkan"
  ]

  /** `tokens[from..].iter().any(|t| s.contains(t))`. */
  function AnyTokenFrom(tokens: seq<string>, s: string, from: nat): bool
    decreases |tokens| - from
  {
    if from >= |tokens| then false
    else Contains(s, tokens[from]) || AnyTokenFrom(tokens, s, from + 1)
  }

  lemma {:induction false} AnyTokenFromAt(tokens: seq<string>, s: string, from: nat)
    ensures AnyTokenFrom(tokens, s, from) <==> exists k :: from <= k < |tokens| && Contains(s, tokens[k])
    decreases |tokens| - from
  {
    if from < |tokens| {
      AnyTokenFromAt(tokens, s, from + 1);
    }
  }

  /** `tokens.iter().any(|t| s.contains(t))`. */
  function AnyToken(tokens: seq<string>, s: string): bool
  {
    AnyTokenFrom(tokens, s, 0)
  }

  /** `App::is_game_process`: some indicator token occurs in the lower-cased name. */
  function IsGameProcess(name: string): bool
  {
    AnyToken(GameIndicators, Lower(name))
  }

  /** The verdict does not depend on case: a name and its lower-cased form classify alike. */
  lemma CaseInsensitive(name: string)
    ensures IsGameProcess(name) == IsGameProcess(Lower(name))
  {
    LowerIdempotent(name);
  }

  /** A name is classified as a game iff one of the 21 tokens occurs in its lower-cased form. */
  lemma IsGameProcessIff(name: string)
    ensures IsGameProcess(name) <==>
            exists k :: 0 <= k < |GameIndicators| && Contains(Lower(name), GameIndicators[k])
  {
    AnyTokenFromAt(GameIndicators, Lower(name), 0);
  }

  /** A Steam client is classified as a game. */
  lemma SteamIsGame()
    ensures IsGameProcess("Steam.exe")
  {
    LowerSteam();
    SteamHasToken();
    IsGameProcessIff("Steam.exe");
  }

  lemma LowerSteam()
    ensures Lower("Steam.exe") == "steam.exe"
  {
    LowerAt("Steam.exe");
    assert Lower("Steam.exe")[0] == LowerChar('S') == 's';
  }

  lemma SteamHasToken()
    ensures Contains("steam.exe", GameIndicators[1])
  {
  }

  /** Notepad is not. */
  lemma NotepadIsNotGame()
    ensures !IsGameProcess("notepad.exe")
  {
    LowerNotepad();
    NotepadHasNoToken();
    IsGameProcessIff("notepad.exe");
  }

  lemma LowerNotepad()
    ensures Lower("notepad.exe") == "notepad.exe"
  {
    LowerIdentity("notepad.exe");
  }

  lemma NotepadHasNoToken()
    ensures forall k | 0 <= k < |GameIndicators| :: !Contains("notepad.exe", GameIndicators[k])
  {
    NotepadHasNoEarlyToken();
    NotepadHasNoLateToken();
  }

  lemma NotepadHasNoEarlyToken()
    ensures forall k | 0 <= k < 11 :: !Contains("notepad.exe", GameIndicators[k])
  {
  }

  lemma NotepadHasNoLateToken()
    ensures forall k | 11 <= k < |GameIndicators| :: !Contains("notepad.exe", GameIndicators[k])
  {
  }

  /** The three names of the worked example of the refresh pipeline. */
  lemma ExampleNames()
    ensures !IsGameProcess("chrome.exe")
    ensures IsGameProcess("steam.exe")
    ensures !IsGameProcess("notepad.exe")
  {
    LowerChrome();
    ChromeHasNoToken();
    IsGameProcessIff("chrome.exe");
    LowerSteamLower();
    SteamHasToken();
    IsGameProcessIff("steam.exe");
    NotepadIsNotGame();
  }

  lemma LowerChrome()
    ensures Lower("chrome.exe") == "chrome.exe"
  {
    LowerIdentity("chrome.exe");
  }

  lemma ChromeHasNoToken()
    ensures forall k | 0 <= k < |GameIndicators| :: !Contains("chrome.exe", GameIndicators[k])
  {
  }

  lemma LowerSteamLower()
    ensures Lower("steam.exe") == "steam.exe"
  {
    LowerIdentity("steam.exe");
  }
}
