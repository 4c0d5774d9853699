/** The command-line tag helpers: `parse_multiple`, `generate_filter_string`
    and the `GITHUB_REF` branch of `get_current_branch_name`. */
module Tags {
  import opened Wrappers
  import opened Strings

  /** A Python `Dict[str, str]`, as its items in insertion order. */
  type Items = seq<(string, string)>

  function KeysOf(items: Items): seq<string>
  {
    seq(|items|, i requires 0 <= i < |items| => items[i].0)
  }

  predicate DistinctKeys(items: Items)
  {
    forall i, j :: 0 <= i < j < |items| ==> items[i].0 != items[j].0
  }

  /** `d.get(key)`. */
  function Lookup(items: Items, key: string): Option<string>
  {
    if items == [] then None
    else if items[0].0 == key then Some(items[0].1)
    else Lookup(items[1..], key)
  }

  /** `d[key] = value`: a key already present keeps its place and takes the
      new value, a new key goes to the end. */
  function Assign(items: Items, key: string, value: string): (r: Items)
    ensures |r| == if key in KeysOf(items) then |items| else |items| + 1
  {
    if items == [] then [(key, value)]
    else if items[0].0 == key then
      assert KeysOf(items)[0] == key;
      [(key, value)] + items[1..]
    else
      assert KeysOf(items) == [items[0].0] + KeysOf(items[1..]);
      [items[0]] + Assign(items[1..], key, value)
  }

  /** After `d[key] = value`, `key` maps to `value` and every other key to what it did. */
  lemma {:induction false} AssignLookup(items: Items, key: string, value: string, k: string)
    ensures Lookup(Assign(items, key, value), k) == if k == key then Some(value) else Lookup(items, k)
    decreases |items|
  {
    if items != [] && items[0].0 != key {
      AssignLookup(items[1..], key, value, k);
      assert ([items[0]] + Assign(items[1..], key, value))[1..] == Assign(items[1..], key, value);
    }
  }

  /** The keys of a non-empty dict: the first key, then the keys of the rest. */
  lemma KeysOfCons(x: (string, string), items: Items)
    ensures KeysOf([x] + items) == [x.0] + KeysOf(items)
  {
    assert forall j :: 0 <= j < |items| ==> ([x] + items)[j + 1] == items[j];
  }

  /** `d[key] = value` keeps the order of the keys and appends a new one. */
  lemma {:induction false} AssignKeys(items: Items, key: string, value: string)
    ensures KeysOf(Assign(items, key, value)) == if key in KeysOf(items) then KeysOf(items) else KeysOf(items) + [key]
    decreases |items|
  {
    if items == [] {
      KeysOfCons((key, value), []);
    } else {
      KeysOfCons(items[0], items[1..]);
      assert [items[0]] + items[1..] == items;
      if items[0].0 == key {
        KeysOfCons((key, value), items[1..]);
      } else {
        var rest := Assign(items[1..], key, value);
        AssignKeys(items[1..], key, value);
        KeysOfCons(items[0], rest);
      }
    }
  }

  /** Keys are distinct exactly when their sequence has no repeats. */
  lemma DistinctKeysOf(items: Items)
    ensures DistinctKeys(items) <==> forall i, j :: 0 <= i < j < |items| ==> KeysOf(items)[i] != KeysOf(items)[j]
  {
    assert forall i :: 0 <= i < |items| ==> KeysOf(items)[i] == items[i].0;
  }

  /** `d[key] = value` never repeats a key. */
  lemma AssignDistinct(items: Items, key: string, value: string)
    requires DistinctKeys(items)
    ensures DistinctKeys(Assign(items, key, value))
  {
    var r := Assign(items, key, value);
    AssignKeys(items, key, value);
    DistinctKeysOf(items);
    DistinctKeysOf(r);
  }

  /** The exception `parse_multiple` raises: `t[1]` on a token with no `=`. */
  datatype ParseError = IndexError(token: string)

  /** The key of a token: its first `=`-segment. */
  function KeyOf(token: string): string
  {
    Split(token, '=')[0]
  }

  /** The value of a token: its second `=`-segment. */
  function ValueOf(token: string): string
    requires '=' in token
  {
    SplitHasTwo(token, '=');
    Split(token, '=')[1]
  }

  /** The dictionary entry one token gives, or the error for a token with no `=`. */
  function Entry(token: string): (r: Result<(string, string), ParseError>)
    ensures r.Success? <==> '=' in token
    ensures r.Failure? ==> r.error == IndexError(token)
  {
    SplitHasTwo(token, '=');
    var parts := Split(token, '=');
    if |parts| < 2 then Failure(IndexError(token)) else Success((parts[0], parts[1]))
  }

  /** A token is its key, `=`, its value, then nothing or a further `=`-segment
      that the parse drops; neither key nor value holds `=`. */
  lemma TokenParts(token: string)
    requires '=' in token
    ensures var key, value := KeyOf(token), ValueOf(token);
      && '=' !in key && '=' !in value
      && |key| + 1 + |value| <= |token|
      && token[..|key| + 1 + |value|] == key + "=" + value
      && (|key| + 1 + |value| == |token| || token[|key| + 1 + |value|] == '=')
  {
    var parts := Split(token, '=');
    SplitHasTwo(token, '=');
    JoinSplit(token, '=');
    if |parts| == 2 {
      assert parts[1..] == [parts[1]];
    } else {
      assert parts[1..][1..] == parts[2..];
      assert Join(parts, "=") == parts[0] + "=" + (parts[1] + "=" + Join(parts[2..], "="));
    }
  }

  /** An entry is found exactly for a token with `=`, and holds its key and value. */
  lemma EntryOfToken(token: string)
    ensures Entry(token).Success? <==> '=' in token
    ensures Entry(token).Failure? ==> Entry(token).error == IndexError(token)
    ensures '=' in token ==> Entry(token).value == (KeyOf(token), ValueOf(token))
  {
    SplitHasTwo(token, '=');
  }

  /** `[t.split("=") for t in tokens]` read as `(t[0], t[1])` pairs, in order:
      the items the dict comprehension assigns, or the `IndexError` it raises
      at the first token without `=`. */
  function Entries(tokens: seq<string>): (r: Result<Items, ParseError>)
    ensures r.Success? ==> |r.value| == |tokens|
    ensures r.Failure? ==> '=' !in r.error.token
    decreases |tokens|
  {
    if tokens == [] then Success([])
    else
      match Entries(tokens[..|tokens| - 1])
      case Failure(e) => Failure(e)
      case Success(pairs) =>
        match Entry(tokens[|tokens| - 1])
        case Failure(e) => Failure(e)
        case Success(kv) => Success(pairs + [kv])
  }

  /** The dict comprehension over pairs: `d[k] = v` for each pair, left to right. */
  function DictOf(pairs: Items): (r: Items)
    ensures DistinctKeys(r)
    ensures |r| <= |pairs|
  {
    if pairs == [] then []
    else
      var d, last := DictOf(pairs[..|pairs| - 1]), pairs[|pairs| - 1];
      AssignDistinct(d, last.0, last.1);
      Assign(d, last.0, last.1)
  }

  /** `parse_multiple`: `{t[0]: t[1] for t in [t.split("=") for t in tokens]}`. */
  function ParseMultiple(tokens: seq<string>): (r: Result<Items, ParseError>)
    ensures r.Success? ==> DistinctKeys(r.value) && |r.value| <= |tokens|
    ensures r.Failure? ==> '=' !in r.error.token
  {
    match Entries(tokens)
    case Failure(e) => Failure(e)
    case Success(pairs) => Success(DictOf(pairs))
  }

  /** The pairs exist exactly when every token has an `=`, and then there is
      one per token, holding the token's entry. */
  lemma {:induction false} EntriesSucceed(tokens: seq<string>)
    ensures Entries(tokens).Success? <==> forall i :: 0 <= i < |tokens| ==> '=' in tokens[i]
    ensures Entries(tokens).Success? ==>
      |Entries(tokens).value| == |tokens|
      && forall i :: 0 <= i < |tokens| ==> Entry(tokens[i]) == Success(Entries(tokens).value[i])
    decreases |tokens|
  {
    if tokens != [] {
      var n := |tokens|;
      var front, last := tokens[..n - 1], tokens[n - 1];
      EntriesSucceed(front);
      EntryOfToken(last);
      assert forall i :: 0 <= i < n - 1 ==> front[i] == tokens[i];
      if forall i :: 0 <= i < n ==> '=' in tokens[i] {
        assert forall i :: 0 <= i < n - 1 ==> '=' in front[i] by {
          forall i | 0 <= i < n - 1 ensures '=' in front[i] {
            assert front[i] == tokens[i];
          }
        }
      } else {
        var i :| 0 <= i < n && '=' !in tokens[i];
        if i < n - 1 {
          assert front[i] == tokens[i];
        }
      }
    }
  }

  /** A failed parse names the first token that has no `=`. */
  lemma {:induction false} EntriesFirstError(tokens: seq<string>, i: nat)
    requires i < |tokens| && '=' !in tokens[i]
    requires forall j :: 0 <= j < i ==> '=' in tokens[j]
    ensures Entries(tokens) == Failure(IndexError(tokens[i]))
    decreases |tokens|
  {
    var n := |tokens|;
    var front := tokens[..n - 1];
    EntryOfToken(tokens[n - 1]);
    if i == n - 1 {
      EntriesSucceed(front);
    } else {
      EntriesFirstError(front, i);
    }
  }

  /** The dict has distinct keys, and a key is in it exactly when some pair names it. */
  lemma {:induction false} DictOfKeys(pairs: Items, key: string)
    ensures DistinctKeys(DictOf(pairs))
    ensures key in KeysOf(DictOf(pairs)) <==> key in KeysOf(pairs)
    decreases |pairs|
  {
    if pairs != [] {
      var n := |pairs|;
      var front, last := pairs[..n - 1], pairs[n - 1];
      DictOfKeys(front, key);
      AssignKeys(DictOf(front), last.0, last.1);
      AssignDistinct(DictOf(front), last.0, last.1);
      assert KeysOf(pairs) == KeysOf(front) + [last.0];
    }
  }

  /** A key's value in the dict comes from the last pair that names it. */
  lemma {:induction false} DictOfLastWins(pairs: Items, i: nat)
    requires i < |pairs|
    requires forall j :: i < j < |pairs| ==> pairs[j].0 != pairs[i].0
    ensures Lookup(DictOf(pairs), pairs[i].0) == Some(pairs[i].1)
    decreases |pairs|
  {
    var n := |pairs|;
    var front, last := pairs[..n - 1], pairs[n - 1];
    AssignLookup(DictOf(front), last.0, last.1, pairs[i].0);
    if i < n - 1 {
      assert front[i] == pairs[i];
      assert forall j :: i < j < n - 1 ==> front[j] == pairs[j];
      DictOfLastWins(front, i);
    }
  }

  /** The keys in order of first appearance, each once. */
  function FirstAppearances(keys: seq<string>): seq<string>
  {
    if keys == [] then []
    else
      var earlier := FirstAppearances(keys[..|keys| - 1]);
      if keys[|keys| - 1] in earlier then earlier else earlier + [keys[|keys| - 1]]
  }

  /** The dict's keys come in the order the pairs first name them. */
  lemma {:induction false} DictOfOrder(pairs: Items)
    ensures KeysOf(DictOf(pairs)) == FirstAppearances(KeysOf(pairs))
    decreases |pairs|
  {
    if pairs != [] {
      var n := |pairs|;
      var front, last := pairs[..n - 1], pairs[n - 1];
      DictOfOrder(front);
      AssignKeys(DictOf(front), last.0, last.1);
      assert KeysOf(pairs)[..n - 1] == KeysOf(front);
    }
  }

  /** The parse succeeds exactly when every token has an `=`. */
  lemma ParseMultipleSucceeds(tokens: seq<string>)
    ensures ParseMultiple(tokens).Success? <==> forall j :: 0 <= j < |tokens| ==> '=' in tokens[j]
  {
    EntriesSucceed(tokens);
  }

  /** A failed parse names the first token without an `=`. */
  lemma ParseMultipleFails(tokens: seq<string>, i: nat)
    requires i < |tokens| && '=' !in tokens[i]
    requires forall j :: 0 <= j < i ==> '=' in tokens[j]
    ensures ParseMultiple(tokens) == Failure(IndexError(tokens[i]))
  {
    EntriesFirstError(tokens, i);
  }

  /** The key of each token, in order. */
  function TokenKeys(tokens: seq<string>): seq<string>
  {
    seq(|tokens|, j requires 0 <= j < |tokens| => KeyOf(tokens[j]))
  }

  /** When every token has an `=`, the pairs are the tokens' keys and values. */
  lemma EntriesOfTokens(tokens: seq<string>)
    requires forall j :: 0 <= j < |tokens| ==> '=' in tokens[j]
    ensures Entries(tokens).Success?
    ensures var pairs := Entries(tokens).value;
      && |pairs| == |tokens|
      && KeysOf(pairs) == TokenKeys(tokens)
      && forall j :: 0 <= j < |tokens| ==> pairs[j] == (KeyOf(tokens[j]), ValueOf(tokens[j]))
  {
    EntriesSucceed(tokens);
    var pairs := Entries(tokens).value;
    forall j | 0 <= j < |tokens| ensures pairs[j] == (KeyOf(tokens[j]), ValueOf(tokens[j])) {
      EntryOfToken(tokens[j]);
    }
  }

  /** On success the dict's keys are distinct and in the order the tokens
      first name them, and a key is present exactly when a token names it. */
  lemma ParseMultipleKeys(tokens: seq<string>, key: string)
    requires forall j :: 0 <= j < |tokens| ==> '=' in tokens[j]
    ensures ParseMultiple(tokens).Success?
    ensures var d := ParseMultiple(tokens).value;
      && DistinctKeys(d)
      && KeysOf(d) == FirstAppearances(TokenKeys(tokens))
      && (key in KeysOf(d) <==> key in TokenKeys(tokens))
  {
    EntriesOfTokens(tokens);
    var pairs := Entries(tokens).value;
    DictOfKeys(pairs, key);
    DictOfOrder(pairs);
  }

  /** On success a key's value comes from the last token that names it. */
  lemma ParseMultipleLastWins(tokens: seq<string>, i: nat)
    requires forall j :: 0 <= j < |tokens| ==> '=' in tokens[j]
    requires i < |tokens|
    requires forall j :: i < j < |tokens| ==> KeyOf(tokens[j]) != KeyOf(tokens[i])
    ensures ParseMultiple(tokens).Success?
    ensures Lookup(ParseMultiple(tokens).value, KeyOf(tokens[i])) == Some(ValueOf(tokens[i]))
  {
    EntriesOfTokens(tokens);
    DictOfLastWins(Entries(tokens).value, i);
  }

  /** Python truthiness of the branch name: `None` and `""` are false. */
  predicate HasBranch(branch: Option<string>)
  {
    branch.Some? && branch.value != ""
  }

  /** One filter clause: `tags.<name>="<value>"`. */
  function Clause(name: string, value: string): string
  {
    "tags." + name + "=\"" + value + "\""
  }

  /** The clauses every filter has, and the branch clause when the branch
      name is non-empty. */
  function GeneralFilters(env: string, branch: Option<string>): seq<string>
  {
    [Clause("dbx_environment", env), Clause("dbx_status", "SUCCESS"), Clause("dbx_action_type", "deploy")]
      + (if HasBranch(branch) then [Clause("dbx_branch_name", branch.value)] else [])
  }

  /** One clause per tag, in order. */
  function TagFilters(tags: Items): seq<string>
  {
    seq(|tags|, i requires 0 <= i < |tags| => Clause(tags[i].0, tags[i].1))
  }

  /** `generate_filter_string`, with the current branch name passed in:
      the general clauses, then the tag clauses, joined by `" and "`. */
  function GenerateFilterString(env: string, tags: Items, branch: Option<string>): string
  {
    Join(GeneralFilters(env, branch) + TagFilters(tags), " and ")
  }

  /** The text every filter string starts with. */
  function BaseFilter(env: string): string
  {
    Clause("dbx_environment", env) + " and " + Clause("dbx_status", "SUCCESS") + " and " + Clause("dbx_action_type", "deploy")
  }

  /** The branch clause with its `" and "`, or nothing without a branch name. */
  function BranchSuffix(branch: Option<string>): string
  {
    if HasBranch(branch) then " and " + Clause("dbx_branch_name", branch.value) else ""
  }

  /** `" and "` followed by the clause of each tag, in order. */
  function TagSuffix(tags: Items): string
  {
    if tags == [] then "" else TagSuffix(tags[..|tags| - 1]) + " and " + Clause(tags[|tags| - 1].0, tags[|tags| - 1].1)
  }

  /** One more tag appends exactly `" and "` and its clause. */
  lemma AddTag(env: string, tags: Items, branch: Option<string>, name: string, value: string)
    ensures GenerateFilterString(env, tags + [(name, value)], branch)
         == GenerateFilterString(env, tags, branch) + " and " + Clause(name, value)
  {
    var general := GeneralFilters(env, branch);
    assert TagFilters(tags + [(name, value)]) == TagFilters(tags) + [Clause(name, value)];
    assert general + TagFilters(tags + [(name, value)]) == (general + TagFilters(tags)) + [Clause(name, value)];
    JoinSnoc(general + TagFilters(tags), Clause(name, value), " and ");
  }

  /** With no tags the filter string is the base clauses and, when there is
      a branch name, `" and "` and the branch clause. */
  lemma FilterStringWithoutTags(env: string, branch: Option<string>)
    ensures GenerateFilterString(env, [], branch) == BaseFilter(env) + BranchSuffix(branch)
  {
    var c1, c2, c3 := Clause("dbx_environment", env), Clause("dbx_status", "SUCCESS"), Clause("dbx_action_type", "deploy");
    var general := [c1, c2, c3];
    assert general[1..] == [c2, c3] && [c2, c3][1..] == [c3];
    assert Join([c2, c3], " and ") == c2 + " and " + c3;
    assert Join(general, " and ") == c1 + " and " + (c2 + " and " + c3);
    assert Join(general, " and ") == BaseFilter(env);
    assert TagFilters([]) == [];
    if HasBranch(branch) {
      assert GeneralFilters(env, branch) + TagFilters([]) == general + [Clause("dbx_branch_name", branch.value)];
      JoinSnoc(general, Clause("dbx_branch_name", branch.value), " and ");
    } else {
      assert GeneralFilters(env, branch) + TagFilters([]) == general;
    }
  }

  /** The filter string is the base clauses, then `" and "` and the branch clause
      when there is a branch name, then `" and "` and each tag's clause. */
  lemma {:induction false} FilterStringShape(env: string, tags: Items, branch: Option<string>)
    ensures GenerateFilterString(env, tags, branch) == BaseFilter(env) + BranchSuffix(branch) + TagSuffix(tags)
    decreases |tags|
  {
    if tags == [] {
      FilterStringWithoutTags(env, branch);
    } else {
      var n := |tags|;
      var front, name, value := tags[..n - 1], tags[n - 1].0, tags[n - 1].1;
      var head := BaseFilter(env) + BranchSuffix(branch);
      FilterStringShape(env, front, branch);
      assert front + [(name, value)] == tags;
      AddTag(env, front, branch, name, value);
      assert TagSuffix(tags) == TagSuffix(front) + " and " + Clause(name, value);
      assert head + TagSuffix(front) + " and " + Clause(name, value) == head + TagSuffix(tags);
    }
  }

  /** An empty branch name adds no clause, as no branch name does. */
  lemma EmptyBranchIgnored(env: string, tags: Items)
    ensures GenerateFilterString(env, tags, Some("")) == GenerateFilterString(env, tags, None)
  {
  }

  /** The `GITHUB_REF` branch of `get_current_branch_name`, with the variable's
      value passed in (`None` when unset) and the repository's answer passed in
      for the other branch (`None` for a detached head or no repository). */
  function CurrentBranchName(githubRef: Option<string>, repositoryBranch: Option<string>): (r: Option<string>)
    ensures githubRef.Some? ==> r.Some? && '/' !in r.value && |r.value| <= |githubRef.value|
    ensures githubRef.None? ==> r == repositoryBranch
  {
    if githubRef.Some? then
      LastSegmentIsSuffix(githubRef.value, '/');
      Some(LastSegment(githubRef.value, '/'))
    else repositoryBranch
  }

  /** With `GITHUB_REF` set the branch name is its last `/`-segment: a suffix with no `/`
      preceded by a `/`, or the whole value when it has none. */
  lemma BranchFromRef(ref: string, repositoryBranch: Option<string>)
    ensures var r := CurrentBranchName(Some(ref), repositoryBranch);
      && r.Some? && '/' !in r.value
      && |r.value| <= |ref| && ref[|ref| - |r.value|..] == r.value
      && (|r.value| < |ref| ==> ref[|ref| - |r.value| - 1] == '/')
      && (|r.value| == |ref| <==> '/' !in ref)
  {
    LastSegmentIsSuffix(ref, '/');
  }

  /** `GITHUB_REF=refs/heads/main` gives the branch `main`. */
  lemma BranchOfHeadsRef(repositoryBranch: Option<string>)
    ensures CurrentBranchName(Some("refs/heads/main"), repositoryBranch) == Some("main")
  {
    var parts := ["refs", "heads", "main"];
    assert Join(parts, "/") == "refs/heads/main";
    SplitJoin(parts, '/');
  }
}
