/** The relabel engine (internal/relabel/relabel.go), with Go's map iteration order left open. */
module Relabel {
  import opened GoTypes

  type Labels = map<bytes, bytes>

  /** A compiled regular expression: whether it matches all of a string, and what a template expands to on it. */
  datatype Regex = Regex(matches: bytes -> bool, expand: (bytes, bytes) -> bytes)

  datatype Action = Drop | Keep | Replace | LabelMap | LabelDrop | LabelKeep | Unknown

  datatype Rule = Rule(action: Action, sourceLabels: seq<bytes>, separator: bytes, targetLabel: bytes,
                       replacement: bytes, regex: Regex)

  // ---------- Ranging over a map that the body changes ----------

  /** The bodies of the three loops over the labels. */
  datatype Loop = Rename(regex: Regex, replacement: bytes) | Remove(regex: Regex) | Retain(regex: Regex)

  /** One iteration, on key `k`. */
  function Visit(loop: Loop, m: Labels, k: bytes): Labels
    requires k in m
  {
    match loop
    case Rename(re, replacement) => if re.matches(k) then m[re.expand(k, replacement) := m[k]] else m
    case Remove(re) => if re.matches(k) then m - {k} else m
    case Retain(re) => if re.matches(k) then m else m - {k}
  }

  /**
   * Section "For statements with range clause" of the Go language specification: each key is produced at most once
   * and only while present; a key present from the start is produced unless it was removed before; a key inserted on
   * the way may be produced or skipped. `schedule` lists the keys still to come, `visited` those already produced.
   */
  ghost predicate Permits(loop: Loop, start: set<bytes>, visited: set<bytes>, m: Labels, schedule: seq<bytes>)
    decreases |schedule|
  {
    if schedule == [] then start * m.Keys <= visited
    else
      var k := schedule[0];
      k in m && k !in visited && Permits(loop, start, visited + {k}, Visit(loop, m, k), schedule[1..])
  }

  /** A schedule Go permits for a loop over `m`. */
  ghost predicate Schedule(loop: Loop, m: Labels, schedule: seq<bytes>) {
    Permits(loop, m.Keys, {}, m, schedule)
  }

  /** The labels after the loop. */
  function Ranged(loop: Loop, m: Labels, schedule: seq<bytes>): Labels
    decreases |schedule|
  {
    if schedule == [] then m
    else if schedule[0] in m then Ranged(loop, Visit(loop, m, schedule[0]), schedule[1..])
    else m
  }

  // ---------- labeldrop and labelkeep are filters ----------

  function Matching(m: Labels, re: Regex): Labels {
    map k | k in m && re.matches(k) :: m[k]
  }

  function NotMatching(m: Labels, re: Regex): Labels {
    map k | k in m && !re.matches(k) :: m[k]
  }

  lemma {:induction false} RemoveFilters(re: Regex, start: set<bytes>, visited: set<bytes>, m: Labels,
                                         schedule: seq<bytes>)
    requires m.Keys <= start && Permits(Remove(re), start, visited, m, schedule)
    requires forall k :: k in m && k in visited ==> !re.matches(k)
    ensures Ranged(Remove(re), m, schedule) == NotMatching(m, re)
    decreases |schedule|
  {
    if schedule == [] {
      assert NotMatching(m, re) == m;
    } else {
      var k := schedule[0];
      var m' := Visit(Remove(re), m, k);
      RemoveFilters(re, start, visited + {k}, m', schedule[1..]);
      assert NotMatching(m', re) == NotMatching(m, re);
    }
  }

  lemma {:induction false} RetainFilters(re: Regex, start: set<bytes>, visited: set<bytes>, m: Labels,
                                         schedule: seq<bytes>)
    requires m.Keys <= start && Permits(Retain(re), start, visited, m, schedule)
    requires forall k :: k in m && k in visited ==> re.matches(k)
    ensures Ranged(Retain(re), m, schedule) == Matching(m, re)
    decreases |schedule|
  {
    if schedule == [] {
      assert Matching(m, re) == m;
    } else {
      var k := schedule[0];
      var m' := Visit(Retain(re), m, k);
      RetainFilters(re, start, visited + {k}, m', schedule[1..]);
      assert Matching(m', re) == Matching(m, re);
    }
  }

  /** Whatever the order, labeldrop and labelkeep with one regex split the labels between them. */
  lemma DropAndKeepPartition(re: Regex, m: Labels, s1: seq<bytes>, s2: seq<bytes>)
    requires Schedule(Remove(re), m, s1) && Schedule(Retain(re), m, s2)
    ensures var dropped, kept := Ranged(Remove(re), m, s1), Ranged(Retain(re), m, s2);
            && dropped == NotMatching(m, re) && kept == Matching(m, re)
            && dropped.Keys !! kept.Keys && dropped + kept == m
  {
    RemoveFilters(re, m.Keys, {}, m, s1);
    RetainFilters(re, m.Keys, {}, m, s2);
  }

  // ---------- labelmap: when the order does not show ----------

  /** `k` matches and is renamed to something else. */
  predicate Moved(re: Regex, replacement: bytes, k: bytes) {
    re.matches(k) && re.expand(k, replacement) != k
  }

  /**
   * On the names in `ks`, the order of the renames does not matter: no two move to the same place, and where one moves
   * to a name that moves too, that name is not among them and moves right back.
   */
  ghost predicate OrderlyOn(re: Regex, replacement: bytes, ks: set<bytes>) {
    && (forall j, k ::
          && j in ks && k in ks && Moved(re, replacement, j) && Moved(re, replacement, k)
          && re.expand(j, replacement) == re.expand(k, replacement)
          ==> j == k)
    && (forall k :: k in ks && Moved(re, replacement, k) && Moved(re, replacement, re.expand(k, replacement)) ==>
          re.expand(k, replacement) !in ks && re.expand(re.expand(k, replacement), replacement) == k)
  }

  /** The renamed copies of the labels in `ks`. */
  ghost function Copies(re: Regex, replacement: bytes, m: Labels, ks: set<bytes>): Labels
    requires OrderlyOn(re, replacement, m.Keys)
  {
    map k | k in m && k in ks && Moved(re, replacement, k) :: re.expand(k, replacement) := m[k]
  }

  /** The original labels overridden by the renamed copies of those in `ks`. */
  ghost function Renamed(re: Regex, replacement: bytes, m: Labels, ks: set<bytes>): Labels
    requires OrderlyOn(re, replacement, m.Keys)
  {
    m + Copies(re, replacement, m, ks)
  }

  lemma CopiesGrow(re: Regex, replacement: bytes, m: Labels, ks: set<bytes>, k: bytes)
    requires OrderlyOn(re, replacement, m.Keys)
    ensures k in m && Moved(re, replacement, k) ==>
              Copies(re, replacement, m, ks + {k}) == Copies(re, replacement, m, ks)[re.expand(k, replacement) := m[k]]
    ensures !(k in m && Moved(re, replacement, k)) ==>
              Copies(re, replacement, m, ks + {k}) == Copies(re, replacement, m, ks)
  {
  }

  /** No copy lands on a label that moves. */
  lemma CopiesStayPut(re: Regex, replacement: bytes, m: Labels, ks: set<bytes>, k: bytes)
    requires OrderlyOn(re, replacement, m.Keys) && k in m && Moved(re, replacement, k)
    ensures k !in Copies(re, replacement, m, ks)
  {
  }

  /** A copy that moves on carries its value right back. */
  lemma CopyMovesBack(re: Regex, replacement: bytes, m: Labels, ks: set<bytes>, k: bytes)
    requires OrderlyOn(re, replacement, m.Keys) && k !in m && Moved(re, replacement, k)
    requires k in Copies(re, replacement, m, ks)
    ensures var j := re.expand(k, replacement);
            j in m && j !in Copies(re, replacement, m, ks) && m[j] == Copies(re, replacement, m, ks)[k]
  {
    var j :| j in m && j in ks && Moved(re, replacement, j) && re.expand(j, replacement) == k;
    CopiesStayPut(re, replacement, m, ks, j);
  }

  lemma RenameStep(re: Regex, replacement: bytes, m: Labels, visited: set<bytes>, k: bytes)
    requires OrderlyOn(re, replacement, m.Keys) && k in Renamed(re, replacement, m, visited)
    ensures Visit(Rename(re, replacement), Renamed(re, replacement, m, visited), k) ==
            Renamed(re, replacement, m, visited + {k})
  {
    hide Copies, OrderlyOn;
    CopiesGrow(re, replacement, m, visited, k);
    if Moved(re, replacement, k) {
      if k in m {
        CopiesStayPut(re, replacement, m, visited, k);
      } else {
        CopyMovesBack(re, replacement, m, visited, k);
      }
    }
  }

  lemma {:induction false} OrderlyRename(re: Regex, replacement: bytes, m: Labels, visited: set<bytes>,
                                         schedule: seq<bytes>)
    requires OrderlyOn(re, replacement, m.Keys)
    requires Permits(Rename(re, replacement), m.Keys, visited, Renamed(re, replacement, m, visited), schedule)
    ensures Ranged(Rename(re, replacement), Renamed(re, replacement, m, visited), schedule) ==
            Renamed(re, replacement, m, m.Keys)
    decreases |schedule|
  {
    hide OrderlyOn, Visit;
    if schedule == [] {
      AllCopied(re, replacement, m, visited);
    } else {
      hide Renamed;
      RenameStep(re, replacement, m, visited, schedule[0]);
      OrderlyRename(re, replacement, m, visited + {schedule[0]}, schedule[1..]);
    }
  }

  lemma AllCopied(re: Regex, replacement: bytes, m: Labels, visited: set<bytes>)
    requires OrderlyOn(re, replacement, m.Keys)
    requires m.Keys * Renamed(re, replacement, m, visited).Keys <= visited
    ensures Renamed(re, replacement, m, visited) == Renamed(re, replacement, m, m.Keys)
  {
    assert m.Keys <= visited;
    assert Copies(re, replacement, m, visited) == Copies(re, replacement, m, m.Keys);
  }

  /** Where the rename is orderly, every schedule ends in the original labels overridden by the renamed ones. */
  lemma LabelMapResult(re: Regex, replacement: bytes, m: Labels, schedule: seq<bytes>)
    requires OrderlyOn(re, replacement, m.Keys) && Schedule(Rename(re, replacement), m, schedule)
    ensures Ranged(Rename(re, replacement), m, schedule) == Renamed(re, replacement, m, m.Keys)
  {
    assert Renamed(re, replacement, m, {}) == m;
    OrderlyRename(re, replacement, m, {}, schedule);
  }

  // ---------- labelmap: when the order shows ----------

  /** On every label set with names in `ks`, all schedules agree. */
  ghost predicate OrderIndependentOn(loop: Loop, ks: set<bytes>) {
    forall m: Labels, s, s' :: m.Keys <= ks && Schedule(loop, m, s) && Schedule(loop, m, s') ==>
                         Ranged(loop, m, s) == Ranged(loop, m, s')
  }

  /** Two labels visited in either order; what each ends in. */
  lemma TwoVisits(re: Regex, replacement: bytes, m: Labels, j: bytes, k: bytes)
    requires j != k && m.Keys == {j, k} && re.matches(j) && re.matches(k)
    ensures var f := (x: bytes) => re.expand(x, replacement);
            var first := m[f(j) := m[j]];
            && Schedule(Rename(re, replacement), m, [j, k])
            && Ranged(Rename(re, replacement), m, [j, k]) == first[f(k) := first[k]]
  {
    var loop := Rename(re, replacement);
    var first := Visit(loop, m, j);
    var second := Visit(loop, first, k);
    assert [j, k][1..] == [k] && [k][1..] == [];
    assert Permits(loop, m.Keys, {j, k}, second, []);
    assert {} + {j} + {k} == {j, k};
    assert Permits(loop, m.Keys, {} + {j}, first, [k]);
    assert Ranged(loop, first, [k]) == second;
  }

  /** Two labels on which the order shows, when they move to the same place or one to the other. */
  lemma DisorderShows(re: Regex, replacement: bytes, ks: set<bytes>, j: bytes, k: bytes)
    requires Moved(re, replacement, j) && Moved(re, replacement, k) && j != k && j in ks && k in ks
    requires
      || (re.expand(j, replacement) == re.expand(k, replacement) && !Moved(re, replacement, re.expand(k, replacement)))
      || re.expand(j, replacement) == k
    ensures !OrderIndependentOn(Rename(re, replacement), ks)
  {
    var m: Labels := map[j := [1], k := [2]];
    assert m.Keys == {j, k};
    TwoVisits(re, replacement, m, j, k);
    TwoVisits(re, replacement, m, k, j);
    var target := re.expand(k, replacement);
    assert Ranged(Rename(re, replacement), m, [j, k])[target] != Ranged(Rename(re, replacement), m, [k, j])[target];
  }

  /** A schedule that begins with a key that can be produced. */
  lemma OneVisit(loop: Loop, m: Labels, schedule: seq<bytes>, start: set<bytes>, visited: set<bytes>)
    requires schedule != [] && schedule[0] in m && schedule[0] !in visited
    ensures var k := schedule[0];
            && Ranged(loop, m, schedule) == Ranged(loop, Visit(loop, m, k), schedule[1..])
            && (Permits(loop, start, visited, m, schedule) <==>
                Permits(loop, start, visited + {k}, Visit(loop, m, k), schedule[1..]))
  {
  }

  lemma NoVisit(loop: Loop, start: set<bytes>, visited: set<bytes>, m: Labels)
    requires start * m.Keys <= visited
    ensures Ranged(loop, m, []) == m && Permits(loop, start, visited, m, [])
  {
  }

  /** One label on which it shows whether its copy is visited, when that moves on to a third name. */
  lemma VisitShows(re: Regex, replacement: bytes, ks: set<bytes>, k: bytes)
    requires Moved(re, replacement, k) && Moved(re, replacement, re.expand(k, replacement)) && k in ks
    requires re.expand(re.expand(k, replacement), replacement) != k
    ensures !OrderIndependentOn(Rename(re, replacement), ks)
  {
    var loop := Rename(re, replacement);
    var t: bytes := re.expand(k, replacement);
    var m: Labels := map[k := [1]];
    var first := Visit(loop, m, k);
    var second := Visit(loop, first, t);
    assert m.Keys == {k} && first == map[k := [1], t := [1]];
    OneVisit(loop, m, [k], m.Keys, {});
    OneVisit(loop, m, [k, t], m.Keys, {});
    OneVisit(loop, first, [t], m.Keys, {} + {k});
    assert [k, t][1..] == [t] && |[k][1..]| == |[t][1..]| == 0;
    hide Permits, Ranged, Visit;
    NoVisit(loop, m.Keys, {} + {k}, first);
    NoVisit(loop, m.Keys, {} + {k} + {t}, second);
    assert Schedule(loop, m, [k]) && Schedule(loop, m, [k, t]);
    assert Ranged(loop, m, [k]) == first && Ranged(loop, m, [k, t]) == second;
    assert re.expand(t, replacement) in second && re.expand(t, replacement) !in first;
  }

  /** labelmap gives the same labels under every iteration order, on label sets with these names, exactly if orderly. */
  lemma LabelMapConfluenceOn(re: Regex, replacement: bytes, ks: set<bytes>)
    ensures OrderIndependentOn(Rename(re, replacement), ks) <==> OrderlyOn(re, replacement, ks)
  {
    var loop := Rename(re, replacement);
    if OrderlyOn(re, replacement, ks) {
      forall m: Labels, s, s' | m.Keys <= ks && Schedule(loop, m, s) && Schedule(loop, m, s')
        ensures Ranged(loop, m, s) == Ranged(loop, m, s')
      {
        LabelMapResult(re, replacement, m, s);
        LabelMapResult(re, replacement, m, s');
      }
    } else {
      Disorder(re, replacement, ks);
    }
  }

  lemma Disorder(re: Regex, replacement: bytes, ks: set<bytes>)
    requires !OrderlyOn(re, replacement, ks)
    ensures !OrderIndependentOn(Rename(re, replacement), ks)
  {
    hide OrderIndependentOn;
    if k :| k in ks && Moved(re, replacement, k) && Moved(re, replacement, re.expand(k, replacement)) &&
            !(re.expand(k, replacement) !in ks && re.expand(re.expand(k, replacement), replacement) == k) {
      if re.expand(k, replacement) in ks {
        DisorderShows(re, replacement, ks, k, re.expand(k, replacement));
      } else {
        VisitShows(re, replacement, ks, k);
      }
    } else {
      var j, k :| j in ks && k in ks && Moved(re, replacement, j) && Moved(re, replacement, k) && j != k &&
                  re.expand(j, replacement) == re.expand(k, replacement);
      DisorderShows(re, replacement, ks, j, k);
    }
  }

  /** No two names at all move to the same place, and none moves to a name that moves on. */
  ghost predicate Orderly(re: Regex, replacement: bytes) {
    && (forall j, k {:trigger Moved(re, replacement, j), Moved(re, replacement, k)} ::
          && Moved(re, replacement, j) && Moved(re, replacement, k)
          && re.expand(j, replacement) == re.expand(k, replacement)
          ==> j == k)
    && (forall k {:trigger Moved(re, replacement, k)} ::
          Moved(re, replacement, k) ==> !Moved(re, replacement, re.expand(k, replacement)))
  }

  /** On every label set whatsoever, exactly for renames that are orderly on all names. */
  lemma LabelMapConfluence(re: Regex, replacement: bytes)
    ensures (forall ks :: OrderIndependentOn(Rename(re, replacement), ks)) <==> Orderly(re, replacement)
  {
    hide OrderIndependentOn;
    forall ks
      ensures OrderIndependentOn(Rename(re, replacement), ks) <==> OrderlyOn(re, replacement, ks)
    {
      LabelMapConfluenceOn(re, replacement, ks);
    }
    if !Orderly(re, replacement) {
      if k :| Moved(re, replacement, k) && Moved(re, replacement, re.expand(k, replacement)) {
        assert !OrderlyOn(re, replacement, {k, re.expand(k, replacement)});
      } else {
        var j, k :| Moved(re, replacement, j) && Moved(re, replacement, k) && j != k &&
                    re.expand(j, replacement) == re.expand(k, replacement);
        assert !OrderlyOn(re, replacement, {j, k});
      }
    }
  }

  /** A simple way to be orderly: on the labels at hand the rename is injective and never yields a matching name. */
  lemma FreshInjectiveIsOrderly(re: Regex, replacement: bytes, m: Labels, schedule: seq<bytes>)
    requires forall j, k ::
               && j in m && k in m && re.matches(j) && re.matches(k)
               && re.expand(j, replacement) == re.expand(k, replacement)
               ==> j == k
    requires forall k :: k in m && re.matches(k) ==> !re.matches(re.expand(k, replacement))
    requires Schedule(Rename(re, replacement), m, schedule)
    ensures var after := Ranged(Rename(re, replacement), m, schedule);
            && (forall k :: k in m && re.matches(k) ==>
                  re.expand(k, replacement) in after && after[re.expand(k, replacement)] == m[k])
            && (forall x :: x in m ==> x in after)
            && (forall x :: x in after && (x !in m || after[x] != m[x]) ==>
                  exists k :: k in m && re.matches(k) && re.expand(k, replacement) == x)
  {
    hide Permits;
    forall k | k in m && re.matches(k)
      ensures Moved(re, replacement, k)
    {
    }
    LabelMapResult(re, replacement, m, schedule);
    CopiesOfAll(re, replacement, m);
  }

  /** What the renamed copies add to the labels. */
  lemma CopiesOfAll(re: Regex, replacement: bytes, m: Labels)
    requires OrderlyOn(re, replacement, m.Keys)
    ensures var after := Renamed(re, replacement, m, m.Keys);
            && (forall k :: k in m && Moved(re, replacement, k) ==>
                  re.expand(k, replacement) in after && after[re.expand(k, replacement)] == m[k])
            && (forall x :: x in m ==> x in after)
            && (forall x :: x in after && (x !in m || after[x] != m[x]) ==>
                  exists k :: k in m && Moved(re, replacement, k) && re.expand(k, replacement) == x)
  {
    var copies := Copies(re, replacement, m, m.Keys);
    forall k | k in m && Moved(re, replacement, k)
      ensures re.expand(k, replacement) in copies && copies[re.expand(k, replacement)] == m[k]
    {
    }
  }

  // ---------- labelmap with the default replacement ----------

  /** A pattern of `prefix` and then (.+), with the dot for any byte; the replacement $1 expands to what is behind. */
  ghost predicate StripsPrefix(re: Regex, replacement: bytes, prefix: bytes) {
    && prefix != []
    && (forall k :: re.matches(k) <==> prefix < k)
    && (forall k :: prefix < k ==> re.expand(k, replacement) == k[|prefix|..])
  }

  /** Stripping a prefix is orderly exactly when no label has it twice and something behind. */
  lemma StrippingPrefix(re: Regex, replacement: bytes, prefix: bytes, ks: set<bytes>)
    requires StripsPrefix(re, replacement, prefix)
    ensures OrderlyOn(re, replacement, ks) <==> forall k :: k in ks ==> !(prefix + prefix < k)
  {
    var n := |prefix|;
    forall k
      ensures Moved(re, replacement, k) <==> prefix < k
      ensures prefix < k ==> k == prefix + k[n..]
      ensures prefix < k && prefix < k[n..] <==> prefix + prefix < k
    {
      if prefix < k {
        assert k[..n] == prefix && |k[n..]| < |k|;
      }
      if prefix + prefix < k {
        assert k[..n] == k[..2 * n][..n] == prefix && k[n..][..n] == k[..2 * n][n..] == prefix;
      }
      if prefix < k && prefix < k[n..] {
        assert k[..2 * n] == k[..n] + k[n..][..n];
      }
    }
  }

  // ---------- Rules ----------

  function Value(m: Labels, k: bytes): bytes {
    if k in m then m[k] else []
  }

  /** strings.Join. */
  function Join(parts: seq<bytes>, sep: bytes): bytes {
    if parts == [] then []
    else if |parts| == 1 then parts[0]
    else parts[0] + sep + Join(parts[1..], sep)
  }

  function Values(m: Labels, keys: seq<bytes>): seq<bytes> {
    seq(|keys|, i requires 0 <= i < |keys| => Value(m, keys[i]))
  }

  /** The values of the source labels, joined; a missing label counts as empty. */
  function Joined(m: Labels, keys: seq<bytes>, sep: bytes): bytes {
    Join(Values(m, keys), sep)
  }

  function LoopOf(rule: Rule): Option<Loop> {
    match rule.action
    case LabelMap => Some(Rename(rule.regex, rule.replacement))
    case LabelDrop => Some(Remove(rule.regex))
    case LabelKeep => Some(Retain(rule.regex))
    case _ => None
  }

  /** A rule on a label set; None drops the sample. Only the label loops need a schedule. */
  function ApplyRule(rule: Rule, schedule: seq<bytes>, m: Labels): Option<Labels> {
    if LoopOf(rule).Some? then Some(Ranged(LoopOf(rule).value, m, schedule))
    else
      var val := Joined(m, rule.sourceLabels, rule.separator);
      match rule.action
      case Drop => if rule.regex.matches(val) then None else Some(m)
      case Keep => if rule.regex.matches(val) then Some(m) else None
      case Replace =>
        var replacement := rule.regex.expand(val, rule.replacement);
        if !rule.regex.matches(val) || rule.targetLabel == [] then Some(m)
        else if replacement == [] then Some(m - {rule.targetLabel})
        else Some(m[rule.targetLabel := replacement])
      case _ => Some(m)
  }

  function ApplyRules(rules: seq<Rule>, schedules: seq<seq<bytes>>, m: Labels): Option<Labels>
    requires |rules| == |schedules|
  {
    if rules == [] then Some(m)
    else
      var m' :- ApplyRule(rules[0], schedules[0], m);
      ApplyRules(rules[1..], schedules[1..], m')
  }

  /** Every schedule up to a drop is one Go permits. */
  ghost predicate Permitted(rules: seq<Rule>, schedules: seq<seq<bytes>>, m: Labels)
    requires |rules| == |schedules|
  {
    if rules == [] then true
    else
      && (LoopOf(rules[0]).Some? ==> Schedule(LoopOf(rules[0]).value, m, schedules[0]))
      && match ApplyRule(rules[0], schedules[0], m)
         case None => true
         case Some(m') => Permitted(rules[1..], schedules[1..], m')
  }

  // ---------- What each action does ----------

  /** The values of the source labels with the separator between them, built from the left; a missing one is empty. */
  function SourceText(m: Labels, keys: seq<bytes>, sep: bytes): bytes {
    if keys == [] then []
    else
      var last := keys[|keys| - 1];
      var own := if last in m then m[last] else [];
      if |keys| == 1 then own else SourceText(m, keys[..|keys| - 1], sep) + sep + own
  }

  lemma {:induction false} JoinAppend(parts: seq<bytes>, sep: bytes, part: bytes)
    requires parts != []
    ensures Join(parts + [part], sep) == Join(parts, sep) + sep + part
    decreases |parts|
  {
    assert (parts + [part])[1..] == parts[1..] + [part];
    if |parts| > 1 {
      JoinAppend(parts[1..], sep, part);
      var rest := Join(parts[1..], sep);
      assert parts[0] + sep + (rest + sep + part) == parts[0] + sep + rest + sep + part;
    }
  }

  lemma {:induction false} JoinedIsSourceText(m: Labels, keys: seq<bytes>, sep: bytes)
    ensures Joined(m, keys, sep) == SourceText(m, keys, sep)
    decreases |keys|
  {
    if |keys| > 1 {
      var n := |keys| - 1;
      JoinedIsSourceText(m, keys[..n], sep);
      JoinAppend(Values(m, keys[..n]), sep, Value(m, keys[n]));
      assert Values(m, keys) == Values(m, keys[..n]) + [Value(m, keys[n])];
    }
  }

  /** One rule alone. */
  lemma OneRule(rule: Rule, schedule: seq<bytes>, m: Labels)
    ensures ApplyRules([rule], [schedule], m) == ApplyRule(rule, schedule, m)
    ensures Permitted([rule], [schedule], m) ==> (LoopOf(rule).Some? ==> Schedule(LoopOf(rule).value, m, schedule))
  {
    hide ApplyRule, LoopOf, Schedule;
    assert [rule][1..] == [] && [schedule][1..] == [];
    var step := ApplyRule(rule, schedule, m);
    assert step.Some? ==> ApplyRules([], [], step.value) == Some(step.value);
  }

  /** `drop` keeps exactly what does not match, `keep` exactly what does, and neither changes a label. */
  lemma DropAndKeepRules(rule: Rule, schedule: seq<bytes>, m: Labels)
    ensures var matches := rule.regex.matches(SourceText(m, rule.sourceLabels, rule.separator));
            && (rule.action.Drop? ==> ApplyRules([rule], [schedule], m) == if matches then None else Some(m))
            && (rule.action.Keep? ==> ApplyRules([rule], [schedule], m) == if matches then Some(m) else None)
  {
    hide ApplyRules;
    OneRule(rule, schedule, m);
    JoinedIsSourceText(m, rule.sourceLabels, rule.separator);
  }

  /**
   * `replace` does nothing without a match or without a target label; an empty expansion deletes the target, any other
   * is its new value, and no other label changes.
   */
  lemma ReplaceRule(rule: Rule, schedule: seq<bytes>, m: Labels)
    requires rule.action.Replace?
    ensures var text, target := SourceText(m, rule.sourceLabels, rule.separator), rule.targetLabel;
            var text' := rule.regex.expand(text, rule.replacement);
            match ApplyRules([rule], [schedule], m)
            case None => false
            case Some(after) =>
              && (!rule.regex.matches(text) || target == [] ==> after == m)
              && (rule.regex.matches(text) && target != [] && text' == [] ==> target !in after)
              && (rule.regex.matches(text) && target != [] && text' != [] ==> target in after && after[target] == text')
              && (forall k :: k != target ==> (k in after <==> k in m) && (k in m ==> after[k] == m[k]))
  {
    hide ApplyRules;
    OneRule(rule, schedule, m);
    JoinedIsSourceText(m, rule.sourceLabels, rule.separator);
  }

  /** `labeldrop`, `labelkeep` and `labelmap` keep the sample, under every schedule; other actions do nothing. */
  lemma LabelRules(rule: Rule, schedule: seq<bytes>, m: Labels)
    requires Permitted([rule], [schedule], m)
    ensures rule.action.LabelDrop? ==>
              ApplyRules([rule], [schedule], m) == Some(map k | k in m && !rule.regex.matches(k) :: m[k])
    ensures rule.action.LabelKeep? ==>
              ApplyRules([rule], [schedule], m) == Some(map k | k in m && rule.regex.matches(k) :: m[k])
    ensures rule.action.LabelMap? && OrderlyOn(rule.regex, rule.replacement, m.Keys) ==>
              ApplyRules([rule], [schedule], m) == Some(Renamed(rule.regex, rule.replacement, m, m.Keys))
    ensures rule.action.Unknown? ==> ApplyRules([rule], [schedule], m) == Some(m)
  {
    OneRule(rule, schedule, m);
    hide ApplyRules, Permitted, Permits, OrderlyOn, Renamed;
    match rule.action {
      case LabelDrop => RemoveFilters(rule.regex, m.Keys, {}, m, schedule);
      case LabelKeep => RetainFilters(rule.regex, m.Keys, {}, m, schedule);
      case LabelMap =>
        if OrderlyOn(rule.regex, rule.replacement, m.Keys) {
          LabelMapResult(rule.regex, rule.replacement, m, schedule);
        }
      case _ =>
    }
  }

  /** A concatenated rule list is the first list and then, if the sample is kept, the second. */
  lemma {:induction false} ApplyConcatenation(r1: seq<Rule>, s1: seq<seq<bytes>>, r2: seq<Rule>, s2: seq<seq<bytes>>,
                                              m: Labels)
    requires |r1| == |s1| && |r2| == |s2|
    ensures ApplyRules(r1 + r2, s1 + s2, m) ==
            match ApplyRules(r1, s1, m) case None => None case Some(m') => ApplyRules(r2, s2, m')
    ensures Permitted(r1 + r2, s1 + s2, m) <==>
            Permitted(r1, s1, m) && (ApplyRules(r1, s1, m).Some? ==> Permitted(r2, s2, ApplyRules(r1, s1, m).value))
    decreases |r1|
  {
    hide ApplyRule, Schedule;
    if r1 == [] {
      assert r1 + r2 == r2 && s1 + s2 == s2;
    } else {
      assert (r1 + r2)[1..] == r1[1..] + r2 && (s1 + s2)[1..] == s1[1..] + s2;
      var step := ApplyRule(r1[0], s1[0], m);
      if step.Some? {
        ApplyConcatenation(r1[1..], s1[1..], r2, s2, step.value);
      }
    }
  }

  /** One more rule at the end. */
  lemma ApplyOneMore(rules: seq<Rule>, schedules: seq<seq<bytes>>, rule: Rule, schedule: seq<bytes>, m: Labels)
    requires |rules| == |schedules| && ApplyRules(rules, schedules, m).Some? && Permitted(rules, schedules, m)
    requires LoopOf(rule).Some? ==> Schedule(LoopOf(rule).value, ApplyRules(rules, schedules, m).value, schedule)
    ensures ApplyRules(rules + [rule], schedules + [schedule], m) ==
            ApplyRule(rule, schedule, ApplyRules(rules, schedules, m).value)
    ensures Permitted(rules + [rule], schedules + [schedule], m)
  {
    hide ApplyRule, Schedule;
    ApplyConcatenation(rules, schedules, [rule], [schedule], m);
    var m' := ApplyRules(rules, schedules, m).value;
    assert [rule][1..] == [] && [schedule][1..] == [];
    var step := ApplyRule(rule, schedule, m');
    assert step.Some? ==> ApplyRules([], [], step.value) == Some(step.value);
  }

  lemma DropIsFinal(rules: seq<Rule>, schedules: seq<seq<bytes>>, rest: seq<Rule>, m: Labels)
    requires |rules| == |schedules| && ApplyRules(rules, schedules, m).None? && Permitted(rules, schedules, m)
    ensures var all := schedules + seq(|rest|, _ => []);
            ApplyRules(rules + rest, all, m).None? && Permitted(rules + rest, all, m)
  {
    ApplyConcatenation(rules, schedules, rest, seq(|rest|, _ => []), m);
  }

  // ---------- The engine ----------

  datatype RelabelConfig = RelabelConfig(sourceLabels: seq<bytes>, separator: bytes, regex: bytes, targetLabel: bytes,
                                         replacement: bytes, action: Action)

  /** An empty field takes its default; the pattern is anchored at both ends. */
  function WithDefault(s: bytes, default: string): bytes
    requires forall i :: 0 <= i < |default| ==> default[i] < 128 as char
  {
    if s == [] then Ascii(default) else s
  }

  function Anchored(c: RelabelConfig): bytes {
    Ascii("^(?:") + WithDefault(c.regex, "(.*)") + Ascii(")$")
  }

  /** A given pattern, or (.*), between ^(?: and )$. */
  lemma AnchoredPattern(c: RelabelConfig)
    ensures Anchored(c) == [94, 40, 63, 58] + (if c.regex == [] then [40, 46, 42, 41] else c.regex) + [41, 36]
  {
  }

  /** The compiled rules, or None when some pattern does not compile. */
  method New(configs: seq<RelabelConfig>, compile: bytes -> Option<Regex>) returns (res: Option<seq<Rule>>)
    ensures res.None? <==> exists i :: 0 <= i < |configs| && compile(Anchored(configs[i])).None?
    ensures res.Some? ==>
              && |res.value| == |configs|
              && forall i :: 0 <= i < |configs| ==>
                   var c, rule := configs[i], res.value[i];
                   && compile(Anchored(c)) == Some(rule.regex)
                   && rule.replacement == (if c.replacement == [] then [36, 49] else c.replacement)
                   && rule.separator == (if c.separator == [] then [59] else c.separator)
                   && rule.action == c.action && rule.sourceLabels == c.sourceLabels
                   && rule.targetLabel == c.targetLabel
  {
    var rules: seq<Rule> := [];
    for i := 0 to |configs|
      invariant |rules| == i
      invariant forall k :: 0 <= k < i ==>
                  var c, rule := configs[k], rules[k];
                  && compile(Anchored(c)) == Some(rule.regex)
                  && rule.replacement == (if c.replacement == [] then [36, 49] else c.replacement)
                  && rule.separator == (if c.separator == [] then [59] else c.separator)
                  && rule.action == c.action && rule.sourceLabels == c.sourceLabels && rule.targetLabel == c.targetLabel
    {
      var c := configs[i];
      var replacement := WithDefault(c.replacement, "$1");
      var separator := WithDefault(c.separator, ";");
      assert Ascii("$1") == [36, 49] && Ascii(";") == [59];
      var re := compile(Anchored(c));
      if re.None? {
        return None;
      }
      rules := rules + [Rule(c.action, c.sourceLabels, separator, c.targetLabel, replacement, re.value)];
    }
    res := Some(rules);
  }

  /** A Go map of labels, which callers share and the engine changes in place. */
  class LabelSet {
    var m: Labels

    constructor (m: Labels)
      ensures this.m == m
    {
      this.m := m;
    }
  }

  method JoinValues(labels: LabelSet, keys: seq<bytes>, sep: bytes) returns (val: bytes)
    ensures val == Joined(labels.m, keys, sep)
  {
    var parts: seq<bytes> := [];
    for i := 0 to |keys|
      invariant |parts| == i && forall k :: 0 <= k < i ==> parts[k] == Value(labels.m, keys[k])
    {
      parts := parts + [Value(labels.m, keys[i])];
    }
    assert parts == Values(labels.m, keys);
    val := Join(parts, sep);
  }

  /** Ranges over the labels in an order nobody chose; `budget` bounds how many inserted keys happen to be visited. */
  method Range(labels: LabelSet, loop: Loop) returns (schedule: seq<bytes>)
    modifies labels
    ensures Schedule(loop, old(labels.m), schedule) && labels.m == Ranged(loop, old(labels.m), schedule)
  {
    var start := labels.m.Keys;
    var visited: set<bytes> := {};
    var budget: nat := *;
    schedule := [];
    SoStarts(loop, labels.m);
    while (start * labels.m.Keys) - visited != {} || budget > 0
      invariant So(loop, old(labels.m), schedule, visited, labels.m)
      decreases start - visited, budget
    {
      if labels.m.Keys - visited == {} {
        break;
      }
      var k :| k in labels.m.Keys - visited;
      if k !in start {
        if budget == 0 {
          k :| k in (start * labels.m.Keys) - visited;
        } else {
          budget := budget - 1;
        }
      }
      SoNext(loop, old(labels.m), schedule, visited, labels.m, k);
      assert k !in start ==> start - visited == start - (visited + {k});
      labels.m := Visit(loop, labels.m, k);
      schedule := schedule + [k];
      visited := visited + {k};
    }
    AllVisited(start, labels.m.Keys, visited);
    SoEnds(loop, old(labels.m), schedule, visited, labels.m);
  }

  lemma AllVisited(start: set<bytes>, keys: set<bytes>, visited: set<bytes>)
    requires keys - visited == {} || (start * keys) - visited == {}
    ensures start * keys <= visited
  {
    forall k | k in start * keys
      ensures k in visited
    {
      assert k !in keys - visited || k !in (start * keys) - visited;
    }
  }

  /** The loop has visited `done` so far; any permitted continuation makes a permitted schedule. */
  ghost predicate So(loop: Loop, m0: Labels, done: seq<bytes>, visited: set<bytes>, m: Labels) {
    forall rest :: Permits(loop, m0.Keys, visited, m, rest) ==>
                     Schedule(loop, m0, done + rest) && Ranged(loop, m0, done + rest) == Ranged(loop, m, rest)
  }

  lemma SoStarts(loop: Loop, m0: Labels)
    ensures So(loop, m0, [], {}, m0)
  {
    forall rest | Permits(loop, m0.Keys, {}, m0, rest)
      ensures Schedule(loop, m0, [] + rest) && Ranged(loop, m0, [] + rest) == Ranged(loop, m0, rest)
    {
      assert [] + rest == rest;
    }
  }

  lemma SoNext(loop: Loop, m0: Labels, done: seq<bytes>, visited: set<bytes>, m: Labels, k: bytes)
    requires So(loop, m0, done, visited, m) && k in m && k !in visited
    ensures So(loop, m0, done + [k], visited + {k}, Visit(loop, m, k))
  {
    hide Visit;
    var m' := Visit(loop, m, k);
    forall rest | Permits(loop, m0.Keys, visited + {k}, m', rest)
      ensures Schedule(loop, m0, done + [k] + rest) && Ranged(loop, m0, done + [k] + rest) == Ranged(loop, m', rest)
    {
      assert done + [k] + rest == done + ([k] + rest);
      assert ([k] + rest)[1..] == rest;
      assert Permits(loop, m0.Keys, visited, m, [k] + rest);
    }
  }

  lemma SoEnds(loop: Loop, m0: Labels, done: seq<bytes>, visited: set<bytes>, m: Labels)
    requires So(loop, m0, done, visited, m) && m0.Keys * m.Keys <= visited
    ensures Schedule(loop, m0, done) && Ranged(loop, m0, done) == m
  {
    assert Permits(loop, m0.Keys, visited, m, []);
    assert done + [] == done;
  }

  /**
   * Runs the rules on the labels, changing them in place; false drops the sample. The schedules are those the loops
   * happened to follow.
   */
  method Apply(rules: seq<Rule>, labels: LabelSet) returns (keep: bool, schedules: seq<seq<bytes>>)
    modifies labels
    ensures |schedules| == |rules| && Permitted(rules, schedules, old(labels.m))
    ensures match ApplyRules(rules, schedules, old(labels.m))
            case None => !keep
            case Some(m') => keep && labels.m == m'
  {
    hide ApplyRules, Permitted, Schedule, Ranged;
    schedules := [];
    NoRules(labels.m);
    assert rules[..0] == [];
    for i := 0 to |rules|
      invariant |schedules| == i && Permitted(rules[..i], schedules, old(labels.m))
      invariant ApplyRules(rules[..i], schedules, old(labels.m)) == Some(labels.m)
    {
      var rule := rules[i];
      ghost var before := labels.m;
      var schedule: seq<bytes> := [];
      keep := true;
      match rule.action {
        case Drop =>
          var val := JoinValues(labels, rule.sourceLabels, rule.separator);
          keep := !rule.regex.matches(val);
        case Keep =>
          var val := JoinValues(labels, rule.sourceLabels, rule.separator);
          keep := rule.regex.matches(val);
        case Replace =>
          var val := JoinValues(labels, rule.sourceLabels, rule.separator);
          if rule.regex.matches(val) {
            var replacement := rule.regex.expand(val, rule.replacement);
            if rule.targetLabel != [] {
              if replacement == [] {
                labels.m := labels.m - {rule.targetLabel};
              } else {
                labels.m := labels.m[rule.targetLabel := replacement];
              }
            }
          }
        case LabelMap =>
          schedule := Range(labels, Rename(rule.regex, rule.replacement));
        case LabelDrop =>
          schedule := Range(labels, Remove(rule.regex));
        case LabelKeep =>
          schedule := Range(labels, Retain(rule.regex));
        case Unknown =>
      }
      ApplyOneMore(rules[..i], schedules, rule, schedule, old(labels.m));
      assert rules[..i + 1] == rules[..i] + [rule];
      schedules := schedules + [schedule];
      if !keep {
        DropIsFinal(rules[..i + 1], schedules, rules[i + 1..], old(labels.m));
        assert rules[..i + 1] + rules[i + 1..] == rules;
        schedules := schedules + seq(|rules| - i - 1, _ => []);
        return;
      }
    }
    assert rules[..|rules|] == rules;
    keep := true;
  }

  lemma NoRules(m: Labels)
    ensures ApplyRules([], [], m) == Some(m) && Permitted([], [], m)
  {
  }
}
