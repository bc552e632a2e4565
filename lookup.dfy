/**
 * The user lookup that the OAuth2 and the bearer-token examples share:
 * a linear scan for the first record whose username CONTAINS the query
 * (Python's `query in username`), not one that equals it.
 */
module UserLookup {

  /** What `get_user` returns: the record found, or `False`. */
  datatype Lookup<+U> = Found(user: U) | NotFound

  /** `query` occurs in `s` starting at index `i`. */
  predicate OccursAt(query: string, s: string, i: int) {
    0 <= i && i + |query| <= |s| && s[i..i + |query|] == query
  }

  /** Python's substring test `query in s`. */
  predicate Contains(query: string, s: string)
    decreases |s|
  {
    if |query| > |s| then false
    else if s[..|query|] == query then true
    else Contains(query, s[1..])
  }

  /** `Contains` holds exactly when the query occurs at some index of `s`. */
  lemma {:induction false} ContainsIff(query: string, s: string)
    ensures Contains(query, s) <==> exists i :: OccursAt(query, s, i)
    decreases |s|
  {
    if |query| > |s| {
    } else if s[..|query|] == query {
      assert OccursAt(query, s, 0);
    } else {
      ContainsIff(query, s[1..]);
      if exists i :: OccursAt(query, s[1..], i) {
        var i :| OccursAt(query, s[1..], i);
        assert s[1..][i..i + |query|] == s[i + 1..i + 1 + |query|];
        assert OccursAt(query, s, i + 1);
      }
      if exists i :: OccursAt(query, s, i) {
        var i :| OccursAt(query, s, i);
        assert i != 0;
        assert s[1..][i - 1..i - 1 + |query|] == s[i..i + |query|];
        assert OccursAt(query, s[1..], i - 1);
      }
    }
  }

  /** Every string contains itself; in particular every username matches its own name. */
  lemma ContainsSelf(s: string)
    ensures Contains(s, s)
  {
    assert s[..|s|] == s;
  }

  /** Substring containment is transitive. */
  lemma ContainsTransitive(a: string, b: string, c: string)
    requires Contains(a, b) && Contains(b, c)
    ensures Contains(a, c)
  {
    ContainsIff(a, b);
    ContainsIff(b, c);
    var i :| OccursAt(a, b, i);
    var j :| OccursAt(b, c, j);
    forall k | 0 <= k < |a|
      ensures c[j + i + k] == a[k]
    {
      assert a[k] == b[i..i + |a|][k] == b[i + k];
      assert b[i + k] == c[j..j + |b|][i + k];
    }
    assert c[j + i..j + i + |a|] == a;
    assert OccursAt(a, c, j + i);
    ContainsIff(a, c);
  }

  /** Index `i` holds the first record of `users` whose name contains `query`. */
  ghost predicate IsFirstMatch<U>(query: string, users: seq<U>, name: U -> string, i: int) {
    && 0 <= i < |users|
    && Contains(query, name(users[i]))
    && forall j :: 0 <= j < i ==> !Contains(query, name(users[j]))
  }

  /** The record `get_user` returns for `query`, read left to right. */
  function FirstMatch<U>(query: string, users: seq<U>, name: U -> string): (r: Lookup<U>)
    ensures r.NotFound? <==> forall i :: 0 <= i < |users| ==> !Contains(query, name(users[i]))
    ensures r.Found? ==> exists i :: IsFirstMatch(query, users, name, i) && users[i] == r.user
  {
    if users == [] then NotFound
    else if Contains(query, name(users[0])) then
      assert IsFirstMatch(query, users, name, 0);
      Found(users[0])
    else
      var rest := FirstMatch(query, users[1..], name);
      assert forall i :: 1 <= i < |users| ==> users[i] == users[1..][i - 1];
      assert forall k :: IsFirstMatch(query, users[1..], name, k) ==> IsFirstMatch(query, users, name, k + 1);
      rest
  }

  /** The loop of `get_user`: return the first record that matches, else `False`. */
  method GetUser<U>(query: string, users: seq<U>, name: U -> string) returns (r: Lookup<U>)
    ensures r == FirstMatch(query, users, name)
  {
    for i := 0 to |users|
      invariant FirstMatch(query, users, name) == FirstMatch(query, users[i..], name)
    {
      assert users[i..][1..] == users[i + 1..];
      if Contains(query, name(users[i])) {
        return Found(users[i]);
      }
    }
    return NotFound;
  }

  /** The empty query is contained in every name, so it resolves to the first record. */
  lemma EmptyQueryMatchesFirst<U>(users: seq<U>, name: U -> string)
    requires users != []
    ensures FirstMatch("", users, name) == Found(users[0])
  {
    assert name(users[0])[..0] == "";
  }

  /**
   * Looking up the name of the record a query resolved to gives that same
   * record back: any earlier record containing that name would contain the
   * query as well, and would have been found first.
   */
  lemma FoundNameResolvesToSelf<U>(query: string, users: seq<U>, name: U -> string)
    requires FirstMatch(query, users, name).Found?
    ensures FirstMatch(name(FirstMatch(query, users, name).user), users, name) == FirstMatch(query, users, name)
  {
    var u := FirstMatch(query, users, name).user;
    var i :| IsFirstMatch(query, users, name, i) && users[i] == u;
    ContainsSelf(name(u));
    forall j | 0 <= j < i
      ensures !Contains(name(u), name(users[j]))
    {
      if Contains(name(u), name(users[j])) {
        ContainsTransitive(query, name(u), name(users[j]));
      }
    }
    FirstMatchAt(name(u), users, name, i);
  }

  /** A first match at a known index is what `FirstMatch` returns. */
  lemma {:induction false} FirstMatchAt<U>(query: string, users: seq<U>, name: U -> string, i: int)
    requires IsFirstMatch(query, users, name, i)
    ensures FirstMatch(query, users, name) == Found(users[i])
    decreases i
  {
    if i > 0 {
      assert !Contains(query, name(users[0]));
      assert IsFirstMatch(query, users[1..], name, i - 1) by {
        forall j | 0 <= j < i - 1
          ensures !Contains(query, name(users[1..][j]))
        {
          assert users[1..][j] == users[j + 1];
        }
      }
      FirstMatchAt(query, users[1..], name, i - 1);
    }
  }
}
