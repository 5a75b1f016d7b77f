/**
  The user list of the dashboard: the search box's filter over the loaded
  users, the "Showing X of Y" count it feeds, and the initials shown in each
  user's avatar.
 */
module UserList {
  import opened Optional
  import opened Text

  /** A row of the table; `role` and `status` are optional. */
  datatype User = User(
    id: string, name: string, email: string, phone: string, city: string,
    role: Option<seq<string>>, status: Option<string>)

  // ---------------------------------------------------------------------
  // Search

  /** The filter's test: the lower-cased query occurs in the lower-cased
      name or in the lower-cased city. */
  predicate MatchesQuery(u: User, query: string) {
    Includes(ToLower(u.name), ToLower(query)) || Includes(ToLower(u.city), ToLower(query))
  }

  /** `xs` is `ys` with some elements left out, the rest in their order. */
  predicate IsSubsequence(xs: seq<User>, ys: seq<User>)
    decreases |ys|
  {
    if ys == [] then xs == []
    else (xs != [] && xs[0] == ys[0] && IsSubsequence(xs[1..], ys[1..])) || IsSubsequence(xs, ys[1..])
  }

  /** `users.filter(u => MatchesQuery(u, query))`: the matching users in their
      order, each as many times as it occurs. */
  function Filter(users: seq<User>, query: string): (kept: seq<User>)
    ensures IsSubsequence(kept, users)
    ensures forall u :: u in kept <==> u in users && MatchesQuery(u, query)
    ensures forall u :: multiset(kept)[u] == if MatchesQuery(u, query) then multiset(users)[u] else 0
  {
    if users == [] then []
    else
      var rest := Filter(users[1..], query);
      assert users == [users[0]] + users[1..];
      if MatchesQuery(users[0], query) then [users[0]] + rest else rest
  }

  /** `handleSearch`: the empty query shows every user, any other query the
      users it matches. */
  function Search(allUsers: seq<User>, query: string): (filtered: seq<User>)
    ensures query == "" ==> filtered == allUsers
    ensures IsSubsequence(filtered, allUsers)
    ensures forall u :: u in filtered <==> u in allUsers && MatchesQuery(u, query)
  {
    if query == "" then
      SubsequenceOfItself(allUsers);
      forall u | u in allUsers ensures MatchesQuery(u, query) {
        IncludesEmpty(ToLower(u.name));
      }
      allUsers
    else
      Filter(allUsers, query)
  }

  lemma {:induction false} SubsequenceOfItself(ys: seq<User>)
    ensures IsSubsequence(ys, ys)
    decreases |ys|
  {
    if ys != [] {
      SubsequenceOfItself(ys[1..]);
    }
  }

  /** A subsequence is no longer than the sequence it is taken from. */
  lemma {:induction false} SubsequenceLength(xs: seq<User>, ys: seq<User>)
    requires IsSubsequence(xs, ys)
    ensures |xs| <= |ys|
    decreases |ys|
  {
    if ys != [] {
      if xs != [] && xs[0] == ys[0] && IsSubsequence(xs[1..], ys[1..]) {
        SubsequenceLength(xs[1..], ys[1..]);
      } else {
        SubsequenceLength(xs, ys[1..]);
      }
    }
  }

  /** "Showing X of Y total Users": X never exceeds Y. */
  lemma ShownAtMostTotal(allUsers: seq<User>, query: string)
    ensures |Search(allUsers, query)| <= |allUsers|
  {
    SubsequenceLength(Search(allUsers, query), allUsers);
  }

  /** The empty query matches everyone, so the filter alone would already
      give the full list for it. */
  lemma {:induction false} FilterEmptyQuery(users: seq<User>)
    ensures Filter(users, "") == users
    decreases |users|
  {
    if users != [] {
      IncludesEmpty(ToLower(users[0].name));
      FilterEmptyQuery(users[1..]);
    }
  }

  /** Two queries that match the same users filter alike. */
  lemma {:induction false} FilterSameMatches(users: seq<User>, q1: string, q2: string)
    requires forall u :: MatchesQuery(u, q1) == MatchesQuery(u, q2)
    ensures Filter(users, q1) == Filter(users, q2)
    decreases |users|
  {
    if users != [] {
      FilterSameMatches(users[1..], q1, q2);
    }
  }

  /** Searching for a query and for its lower-cased form gives the same list. */
  lemma SearchIgnoresCase(allUsers: seq<User>, query: string)
    ensures Search(allUsers, ToLower(query)) == Search(allUsers, query)
  {
    ToLowerIdempotent(query);
    FilterSameMatches(allUsers, ToLower(query), query);
  }

  // ---------------------------------------------------------------------
  // Initials

  /** `s.split(' ')`: the pieces between single spaces, empty pieces included. */
  function Split(s: string): (parts: seq<string>)
    ensures |parts| >= 1
    ensures forall k :: 0 <= k < |parts| ==> ' ' !in parts[k]
    ensures parts[|parts| - 1] == "" <==> s == "" || s[|s| - 1] == ' '
  {
    if s == "" then [""]
    else
      var init, c := s[..|s| - 1], s[|s| - 1];
      var parts := Split(init);
      assert s == init + [c];
      if c == ' ' then
        parts + [""]
      else
        var last := parts[|parts| - 1] + [c];
        var front := parts[..|parts| - 1];
        assert (front + [last])[..|parts| - 1] == front;
        assert parts == front + [parts[|parts| - 1]];
        front + [last]
  }

  /** `parts.join(sep)`, for a non-empty list of parts. */
  function Join(parts: seq<string>, sep: char): string
    requires |parts| >= 1
  {
    if |parts| == 1 then parts[0]
    else Join(parts[..|parts| - 1], sep) + [sep] + parts[|parts| - 1]
  }

  /** Joining the pieces with spaces gives the string back. */
  lemma {:induction false} JoinSplit(s: string)
    ensures Join(Split(s), ' ') == s
    decreases |s|
  {
    if s != "" {
      var init, c := s[..|s| - 1], s[|s| - 1];
      JoinSplit(init);
      var parts := Split(init);
      var front := parts[..|parts| - 1];
      assert s == init + [c];
      if c == ' ' {
        assert (parts + [""])[..|parts|] == parts;
      } else {
        var last := parts[|parts| - 1] + [c];
        assert (front + [last])[..|front|] == front;
        if |parts| > 1 {
          assert parts[..|parts| - 1] == front;
        }
      }
    }
  }

  /** Splitting what was joined with spaces gives the parts back, when no
      part holds a space. */
  lemma {:induction false} SplitJoin(parts: seq<string>)
    requires |parts| >= 1
    requires forall k :: 0 <= k < |parts| ==> ' ' !in parts[k]
    ensures Split(Join(parts, ' ')) == parts
    decreases |parts|, |parts[|parts| - 1]|
  {
    var last := parts[|parts| - 1];
    if |parts| == 1 {
      SplitOfSpaceless(last);
    } else {
      var front := parts[..|parts| - 1];
      assert forall k :: 0 <= k < |front| ==> front[k] == parts[k];
      SplitJoin(front);
      assert Join(parts, ' ') == Join(front, ' ') + " " + last;
      SplitAfterSpace(Join(front, ' '), last);
      assert front + [last] == parts;
    }
  }

  /** A piece with no space splits into itself. */
  lemma {:induction false} SplitOfSpaceless(s: string)
    requires ' ' !in s
    ensures Split(s) == [s]
    decreases |s|
  {
    if s != "" {
      assert ' ' !in s[..|s| - 1] by {
        assert forall k :: 0 <= k < |s| - 1 ==> s[..|s| - 1][k] == s[k];
      }
      SplitOfSpaceless(s[..|s| - 1]);
      assert s[..|s| - 1] + [s[|s| - 1]] == s;
    }
  }

  /** Splitting `t + " " + w`, where `w` holds no space, adds `w` after the
      pieces of `t`. */
  lemma {:induction false} SplitAfterSpace(t: string, w: string)
    requires ' ' !in w
    ensures Split(t + " " + w) == Split(t) + [w]
    decreases |w|
  {
    var s := t + " " + w;
    if w == "" {
      assert s[..|s| - 1] == t;
    } else {
      var init, c := w[..|w| - 1], w[|w| - 1];
      assert ' ' !in init by {
        assert forall k :: 0 <= k < |w| - 1 ==> init[k] == w[k];
      }
      assert c != ' ';
      SplitAfterSpace(t, init);
      var parts := Split(t + " " + init);
      assert s[..|s| - 1] == t + " " + init && s[|s| - 1] == c;
      assert parts[..|parts| - 1] == Split(t);
      assert init + [c] == w;
    }
  }

  /** `n => n[0]`, joined: the first character of a piece, nothing for an
      empty piece (its `undefined` joins as the empty string). */
  function FirstChar(piece: string): string {
    if piece == "" then "" else [piece[0]]
  }

  function FirstChars(parts: seq<string>): string {
    if parts == [] then "" else FirstChars(parts[..|parts| - 1]) + FirstChar(parts[|parts| - 1])
  }

  /** The avatar text: `name.split(' ').map(n => n[0]).join('')`. */
  function Initials(name: string): string {
    FirstChars(Split(name))
  }

  /** Position `i` of `s` starts a word: it is not a space, and it is the
      first position or follows a space. */
  predicate IsWordStart(s: string, i: int)
    requires 0 <= i < |s|
  {
    s[i] != ' ' && (i == 0 || s[i - 1] == ' ')
  }

  /** The characters of `s` that start a word, in order. */
  function WordStarts(s: string): string {
    if s == "" then ""
    else WordStarts(s[..|s| - 1]) + (if IsWordStart(s, |s| - 1) then [s[|s| - 1]] else "")
  }

  /** The initials are the first character of every word of the name, in
      order; runs of spaces and leading or trailing spaces add nothing. */
  lemma {:induction false} InitialsAreWordStarts(name: string)
    ensures Initials(name) == WordStarts(name)
    decreases |name|
  {
    if name != "" {
      var init, c := name[..|name| - 1], name[|name| - 1];
      InitialsAreWordStarts(init);
      var parts := Split(init);
      var front := parts[..|parts| - 1];
      assert parts == front + [parts[|parts| - 1]];
      if c != ' ' {
        var last := parts[|parts| - 1] + [c];
        assert Split(name) == front + [last];
        assert (front + [last])[..|front|] == front;
      } else {
        assert Split(name) == parts + [""];
        assert (parts + [""])[..|parts|] == parts;
      }
    }
  }
}
