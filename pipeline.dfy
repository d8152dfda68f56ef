/** The refresh pipeline of the terminal view: tag every enumerated process, filter, sort. */
module Pipeline {
  import opened Text
  import opened Process
  import opened Classifier
  import opened Sorting

  /** The `ProcessInfo` built for one enumerated process. */
  function Tagged(r: RawProcess): ProcessInfo
  {
    ProcessInfo(r.pid, r.name, r.cpu, r.memory, IsGameProcess(r.name))
  }

  /** The `map(...).collect()` step: every enumerated process, in enumeration order, tagged. */
  function Tag(raw: seq<RawProcess>): (r: seq<ProcessInfo>)
    ensures |r| == |raw|
  {
    if raw == [] then [] else [Tagged(raw[0])] + Tag(raw[1..])
  }

  /** Tagging keeps the enumeration's length and order, record by record. */
  lemma {:induction false} TagAt(raw: seq<RawProcess>)
    ensures |Tag(raw)| == |raw|
    ensures forall i :: 0 <= i < |raw| ==> Tag(raw)[i] == Tagged(raw[i])
    decreases |raw|
  {
    if raw != [] {
      TagAt(raw[1..]);
    }
  }

  /** The search filter: an empty query keeps everything, otherwise the lower-cased
      query must occur in the lower-cased name. */
  predicate MatchesQuery(p: ProcessInfo, query: string)
  {
    query == [] || Contains(Lower(p.name), Lower(query))
  }

  /** Whether a record survives both filters. */
  predicate Keep(p: ProcessInfo, gamesOnly: bool, query: string)
  {
    (!gamesOnly || p.isGame) && MatchesQuery(p, query)
  }

  /** `retain(|p| p.is_game)`. */
  function RetainGames(s: seq<ProcessInfo>): (r: seq<ProcessInfo>)
    ensures |r| <= |s|
    ensures forall p :: p in r ==> p.isGame
  {
    if s == [] then []
    else (if s[0].isGame then [s[0]] else []) + RetainGames(s[1..])
  }

  /** `retain(|p| p.name.to_lowercase().contains(&query))` for an already lower-cased query. */
  function RetainQuery(s: seq<ProcessInfo>, query: string): (r: seq<ProcessInfo>)
    ensures |r| <= |s|
    ensures forall p :: p in r ==> Contains(Lower(p.name), query)
  {
    if s == [] then []
    else (if Contains(Lower(s[0].name), query) then [s[0]] else []) + RetainQuery(s[1..], query)
  }

  /** Both filters in one pass: the records that `Keep` admits, in their original order. */
  function Select(s: seq<ProcessInfo>, gamesOnly: bool, query: string): (r: seq<ProcessInfo>)
    ensures |r| <= |s|
    ensures forall p :: p in r ==> Keep(p, gamesOnly, query)
  {
    if s == [] then []
    else (if Keep(s[0], gamesOnly, query) then [s[0]] else []) + Select(s[1..], gamesOnly, query)
  }

  /** The list a refresh produces from an enumeration and the view settings. */
  function View(raw: seq<RawProcess>, gamesOnly: bool, query: string, mode: SortMode): (r: seq<ProcessInfo>)
    ensures |r| <= |raw|
  {
    SortBy(Select(Tag(raw), gamesOnly, query), mode)
  }

  lemma {:induction false} RetainGamesIsSelect(s: seq<ProcessInfo>)
    ensures RetainGames(s) == Select(s, true, [])
    decreases |s|
  {
    if s != [] {
      RetainGamesIsSelect(s[1..]);
    }
  }

  lemma {:induction false} RetainQueryIsSelect(s: seq<ProcessInfo>, gamesOnly: bool, query: string)
    requires query != []
    ensures RetainQuery(Select(s, gamesOnly, []), Lower(query)) == Select(s, gamesOnly, query)
    decreases |s|
  {
    if s != [] {
      RetainQueryIsSelect(s[1..], gamesOnly, query);
      assert s == [s[0]] + s[1..];
      var rest := Select(s[1..], gamesOnly, []);
      var k := if Contains(Lower(s[0].name), Lower(query)) then [s[0]] else [];
      if Keep(s[0], gamesOnly, []) {
        assert Select(s, gamesOnly, []) == [s[0]] + rest;
        assert RetainQuery([s[0]] + rest, Lower(query)) == k + RetainQuery(rest, Lower(query));
      } else {
        assert Select(s, gamesOnly, []) == rest;
      }
    }
  }

  /** The two `retain` calls of the refresh, applied in turn (each only when its setting is
      active), keep exactly the records that `Keep` admits, in order. */
  lemma RetainStepsAreSelect(s: seq<ProcessInfo>, gamesOnly: bool, query: string)
    ensures (var afterGames := if gamesOnly then RetainGames(s) else s;
             if query == [] then afterGames else RetainQuery(afterGames, Lower(query)))
            == Select(s, gamesOnly, query)
  {
    RetainGamesIsSelect(s);
    NoFilterIsIdentity(s);
    if query != [] {
      RetainQueryIsSelect(s, gamesOnly, query);
    }
  }

  lemma {:induction false} NoFilterIsIdentity(s: seq<ProcessInfo>)
    ensures Select(s, false, []) == s
    decreases |s|
  {
    if s != [] {
      NoFilterIsIdentity(s[1..]);
    }
  }

  /** The order in which the two filters run does not change the result. */
  lemma {:induction false} RetainsCommute(s: seq<ProcessInfo>, query: string)
    ensures RetainQuery(RetainGames(s), query) == RetainGames(RetainQuery(s, query))
    decreases |s|
  {
    if s != [] {
      RetainsCommute(s[1..], query);
      var g := if s[0].isGame then [s[0]] else [];
      var q := if Contains(Lower(s[0].name), query) then [s[0]] else [];
      assert RetainGames(s) == g + RetainGames(s[1..]);
      assert RetainQuery(s, query) == q + RetainQuery(s[1..], query);
      RetainQueryAppend(g, RetainGames(s[1..]), query);
      RetainGamesAppend(q, RetainQuery(s[1..], query));
    }
  }

  lemma {:induction false} RetainQueryAppend(a: seq<ProcessInfo>, b: seq<ProcessInfo>, query: string)
    ensures RetainQuery(a + b, query) == RetainQuery(a, query) + RetainQuery(b, query)
    decreases |a|
  {
    if a != [] {
      assert (a + b)[0] == a[0] && (a + b)[1..] == a[1..] + b;
      RetainQueryAppend(a[1..], b, query);
      var h := if Contains(Lower(a[0].name), query) then [a[0]] else [];
      assert RetainQuery(a + b, query) == h + (RetainQuery(a[1..], query) + RetainQuery(b, query));
      assert h + (RetainQuery(a[1..], query) + RetainQuery(b, query)) == (h + RetainQuery(a[1..], query)) + RetainQuery(b, query);
    } else {
      assert a + b == b;
    }
  }

  lemma {:induction false} RetainGamesAppend(a: seq<ProcessInfo>, b: seq<ProcessInfo>)
    ensures RetainGames(a + b) == RetainGames(a) + RetainGames(b)
    decreases |a|
  {
    if a != [] {
      assert (a + b)[0] == a[0] && (a + b)[1..] == a[1..] + b;
      RetainGamesAppend(a[1..], b);
      var h := if a[0].isGame then [a[0]] else [];
      assert RetainGames(a + b) == h + (RetainGames(a[1..]) + RetainGames(b));
      assert h + (RetainGames(a[1..]) + RetainGames(b)) == (h + RetainGames(a[1..])) + RetainGames(b);
    } else {
      assert a + b == b;
    }
  }

  /** A record occurs in the selection as often as in the input when `Keep` admits it,
      and not at all otherwise. */
  lemma {:induction false} SelectCounts(s: seq<ProcessInfo>, gamesOnly: bool, query: string)
    ensures forall p :: multiset(Select(s, gamesOnly, query))[p] ==
                        if Keep(p, gamesOnly, query) then multiset(s)[p] else 0
    decreases |s|
  {
    if s != [] {
      SelectCounts(s[1..], gamesOnly, query);
      assert s == [s[0]] + s[1..];
    }
  }

  /** What a refresh produces: the list is sorted by the active mode; each record of the
      tagged enumeration appears in it exactly as often as in the enumeration when it passes
      both filters, and not at all otherwise; records with equal keys keep enumeration order. */
  lemma ViewCorrect(raw: seq<RawProcess>, gamesOnly: bool, query: string, mode: SortMode)
    ensures Sorted(View(raw, gamesOnly, query, mode), mode)
    ensures forall p :: multiset(View(raw, gamesOnly, query, mode))[p] ==
                        if Keep(p, gamesOnly, query) then multiset(Tag(raw))[p] else 0
    ensures Stable(Select(Tag(raw), gamesOnly, query), View(raw, gamesOnly, query, mode), mode)
  {
    SortByCorrect(Select(Tag(raw), gamesOnly, query), mode);
    SelectCounts(Tag(raw), gamesOnly, query);
  }

  /** A record is in the refreshed list iff it is the tagged form of some enumerated process
      and passes both filters. */
  lemma ViewMembers(raw: seq<RawProcess>, gamesOnly: bool, query: string, mode: SortMode)
    ensures forall p :: p in View(raw, gamesOnly, query, mode) <==>
                        Keep(p, gamesOnly, query) && exists i :: 0 <= i < |raw| && p == Tagged(raw[i])
  {
    ViewCorrect(raw, gamesOnly, query, mode);
    TagAt(raw);
    forall p
      ensures p in View(raw, gamesOnly, query, mode) <==>
              Keep(p, gamesOnly, query) && exists i :: 0 <= i < |raw| && p == Tagged(raw[i])
    {
      assert p in View(raw, gamesOnly, query, mode) <==> p in multiset(View(raw, gamesOnly, query, mode));
      assert p in Tag(raw) <==> p in multiset(Tag(raw));
      if p in Tag(raw) {
        var i :| 0 <= i < |Tag(raw)| && Tag(raw)[i] == p;
      }
      if exists i :: 0 <= i < |raw| && p == Tagged(raw[i]) {
        var i :| 0 <= i < |raw| && p == Tagged(raw[i]);
        assert Tag(raw)[i] == p;
      }
    }
  }

  /** The worked example in general form: three processes already in descending CPU order,
      of which only the middle one is a game. Sorted by CPU with no filter the list keeps
      enumeration order; with the game filter only the game remains. */
  lemma ThreeProcessViews(c: RawProcess, s: RawProcess, n: RawProcess)
    requires c.cpu > s.cpu > n.cpu
    requires !IsGameProcess(c.name) && IsGameProcess(s.name) && !IsGameProcess(n.name)
    ensures View([c, s, n], false, [], Cpu) == [Tagged(c), Tagged(s), Tagged(n)]
    ensures View([c, s, n], true, [], Cpu) == [Tagged(s)]
  {
    var tc, ts, tn := Tagged(c), Tagged(s), Tagged(n);
    TagThree(c, s, n);
    NoFilterIsIdentity([tc, ts, tn]);
    assert [tc, ts, tn][1..] == [ts, tn];
    assert [ts, tn][1..] == [tn];
    assert Select([tn], true, []) == [];
    assert Select([ts, tn], true, []) == [ts];
    assert Select([tc, ts, tn], true, []) == [ts];
    assert SortBy([ts], Cpu) == [ts];
    assert SortBy([tn], Cpu) == [tn];
    assert SortBy([ts, tn], Cpu) == [ts, tn];
    assert SortBy([tc, ts, tn], Cpu) == [tc, ts, tn];
  }

  lemma TagThree(a: RawProcess, b: RawProcess, c: RawProcess)
    ensures Tag([a, b, c]) == [Tagged(a), Tagged(b), Tagged(c)]
  {
    assert [a, b, c][1..] == [b, c];
    assert [b, c][1..] == [c];
    assert [c][1..] == [];
    assert Tag([c]) == [Tagged(c)];
    assert Tag([b, c]) == [Tagged(b)] + Tag([c]);
    assert Tag([a, b, c]) == [Tagged(a)] + Tag([b, c]);
  }

  /** A worked example: Chrome at 30% CPU, Steam at 5%, Notepad at 1%, only Steam a game. */
  lemma WorkedExample()
    ensures View([RawProcess(1, "chrome.exe", 30.0, 200 * 1048576), RawProcess(2, "steam.exe", 5.0, 100 * 1048576),
                  RawProcess(3, "notepad.exe", 1.0, 10 * 1048576)], false, [], Cpu)
            == [Tagged(RawProcess(1, "chrome.exe", 30.0, 200 * 1048576)), Tagged(RawProcess(2, "steam.exe", 5.0, 100 * 1048576)),
                Tagged(RawProcess(3, "notepad.exe", 1.0, 10 * 1048576))]
    ensures View([RawProcess(1, "chrome.exe", 30.0, 200 * 1048576), RawProcess(2, "steam.exe", 5.0, 100 * 1048576),
                  RawProcess(3, "notepad.exe", 1.0, 10 * 1048576)], true, [], Cpu)
            == [Tagged(RawProcess(2, "steam.exe", 5.0, 100 * 1048576))]
  {
    ExampleNames();
    ThreeProcessViews(RawProcess(1, "chrome.exe", 30.0, 200 * 1048576), RawProcess(2, "steam.exe", 5.0, 100 * 1048576),
                      RawProcess(3, "notepad.exe", 1.0, 10 * 1048576));
  }
}
