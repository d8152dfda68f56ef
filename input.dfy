/** Keyboard input of the terminal view: which key events are handled (event kind and
    debounce) and how the mode and the search query react to a key. */
module Input {
  import opened Clock

  datatype Mode = Normal | Search | Help

  /** The key codes the dispatcher tells apart; every other code of the terminal backend
      (function keys, Tab, Left, Right, ...) is `OtherKey`. */
  datatype KeyCode = Char(c: char) | Esc | Enter | Backspace | Up | Down | OtherKey

  datatype KeyEventKind = Press | Repeat | Release

  /** One event read from the terminal: a key event, or anything else (mouse, resize, ...). */
  datatype Event = Key(kind: KeyEventKind, code: KeyCode) | NonKey

  /** The debounce window, in milliseconds. */
  const DebounceMs: nat := 150

  /** `j`, `k`, Up and Down move the cursor and are exempt from the debounce, in every mode. */
  predicate IsNavigation(code: KeyCode)
  {
    code == Char('j') || code == Char('k') || code == Up || code == Down
  }

  /** Whether the loop handles a key event read at `at` when the last handled key was read
      at `lastKeyTime`: only presses, and a non-navigation press only once the window is over. */
  predicate Accepts(kind: KeyEventKind, code: KeyCode, lastKeyTime: int, at: int)
  {
    kind == Press && (IsNavigation(code) || Elapsed(lastKeyTime, at) >= DebounceMs)
  }

  /** The debounce rule case by case. */
  lemma DebounceRule(kind: KeyEventKind, code: KeyCode, lastKeyTime: int, at: int)
    ensures kind != Press ==> !Accepts(kind, code, lastKeyTime, at)
    ensures kind == Press && IsNavigation(code) ==> Accepts(kind, code, lastKeyTime, at)
    ensures kind == Press && !IsNavigation(code) && lastKeyTime <= at ==>
              (Accepts(kind, code, lastKeyTime, at) <==> at - lastKeyTime >= DebounceMs)
  {
  }

  /** Waiting longer never turns a handled key into a debounced one. */
  lemma DebounceMonotone(kind: KeyEventKind, code: KeyCode, lastKeyTime: int, at: int, later: int)
    requires Accepts(kind, code, lastKeyTime, at) && at <= later
    ensures Accepts(kind, code, lastKeyTime, later)
  {
  }

  /** The exemption is by key code, so in Search a `j` or `k` typed right after another key
      is still handled, and it is typed into the query. */
  lemma SearchNavigationNotDebounced(query: string, c: char, lastKeyTime: int, at: int)
    requires c == 'j' || c == 'k'
    ensures Accepts(Press, Char(c), lastKeyTime, at)
    ensures NextMode(Search, Char(c)) == Search && NextQuery(Search, query, Char(c)) == query + [c]
  {
  }

  /** The mode after a handled key. Quitting (`q` in Normal) leaves the mode as it is. */
  function NextMode(mode: Mode, code: KeyCode): (r: Mode)
    ensures r == Search <==> (mode == Normal && code == Char('/')) ||
                             (mode == Search && code != Esc && code != Enter)
    ensures r == Help <==> (mode == Normal && code == Char('?')) ||
                           (mode == Help && code != Esc && code != Char('?'))
  {
    match mode
    case Normal => if code == Char('?') then Help else if code == Char('/') then Search else Normal
    case Search => if code == Esc || code == Enter then Normal else Search
    case Help => if code == Esc || code == Char('?') then Normal else Help
  }

  /** The search query after a handled key: `/` in Normal clears it; in Search, Esc clears it,
      a character is appended, Backspace drops the last character (if any). */
  function NextQuery(mode: Mode, query: string, code: KeyCode): (r: string)
    ensures mode != Search && !(mode == Normal && code == Char('/')) ==> r == query
    ensures mode == Search && code != Esc && code != Backspace && !code.Char? ==> r == query
    ensures |r| <= |query| + 1
  {
    match mode
    case Normal => if code == Char('/') then [] else query
    case Help => query
    case Search =>
      match code
      case Esc => []
      case Char(c) => query + [c]
      case Backspace => if query == [] then [] else query[..|query| - 1]
      case _ => query
  }

  /** Both effects of a sequence of handled keys on (mode, query). */
  function Replay(mode: Mode, query: string, codes: seq<KeyCode>): (Mode, string)
    decreases |codes|
  {
    if codes == [] then (mode, query)
    else Replay(NextMode(mode, codes[0]), NextQuery(mode, query, codes[0]), codes[1..])
  }

  /** The key codes of typing the characters of `s`. */
  function Typed(s: string): (r: seq<KeyCode>)
    ensures |r| == |s|
  {
    if s == [] then [] else [Char(s[0])] + Typed(s[1..])
  }

  function Backspaces(n: nat): seq<KeyCode>
  {
    if n == 0 then [] else [Backspace] + Backspaces(n - 1)
  }

  /** In Search every character is typed into the query, including `q`, `/`, `?`, `j` and `k`. */
  lemma {:induction false} TypingAppends(query: string, s: string)
    ensures Replay(Search, query, Typed(s)) == (Search, query + s)
    decreases |s|
  {
    if s != [] {
      assert Typed(s)[0] == Char(s[0]) && Typed(s)[1..] == Typed(s[1..]);
      TypingAppends(query + [s[0]], s[1..]);
      assert query + [s[0]] + s[1..] == query + s;
    } else {
      assert query + s == query;
    }
  }

  /** In Search, one Backspace per typed character takes the query back to what it was. */
  lemma {:induction false} BackspacesUndoTyping(query: string, s: string)
    ensures Replay(Search, query + s, Backspaces(|s|)) == (Search, query)
    decreases |s|
  {
    if s != [] {
      var t := s[..|s| - 1];
      assert (query + s)[..|query + s| - 1] == query + t;
      assert Backspaces(|s|)[0] == Backspace && Backspaces(|s|)[1..] == Backspaces(|t|);
      assert NextQuery(Search, query + s, Backspace) == query + t;
      BackspacesUndoTyping(query, t);
    } else {
      assert query + s == query;
    }
  }

  /** Backspace on an empty query in Search leaves it empty. */
  lemma BackspaceOnEmpty()
    ensures Replay(Search, [], Backspaces(1)) == (Search, [])
  {
  }

  lemma {:induction false} ReplayAppend(mode: Mode, query: string, a: seq<KeyCode>, b: seq<KeyCode>)
    ensures Replay(mode, query, a + b) ==
            (var (m, q) := Replay(mode, query, a); Replay(m, q, b))
    decreases |a|
  {
    if a != [] {
      assert (a + b)[0] == a[0] && (a + b)[1..] == a[1..] + b;
      ReplayAppend(NextMode(mode, a[0]), NextQuery(mode, query, a[0]), a[1..], b);
    } else {
      assert a + b == b;
    }
  }

  /** A search session from Normal: `/`, some text, then Enter keeps the text as the query;
      Esc instead throws it away. Either way the view is back in Normal. */
  lemma SearchSession(query: string, s: string)
    ensures Replay(Normal, query, [Char('/')] + Typed(s) + [Enter]) == (Normal, s)
    ensures Replay(Normal, query, [Char('/')] + Typed(s) + [Esc]) == (Normal, [])
  {
    TypingAppends([], s);
    assert [] + s == s;
    ReplayAppend(Normal, query, [Char('/')], Typed(s));
    ReplayAppend(Normal, query, [Char('/')] + Typed(s), [Enter]);
    ReplayAppend(Normal, query, [Char('/')] + Typed(s), [Esc]);
  }
}
