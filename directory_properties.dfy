/** Properties of the directory's list operations (merge, removal, display). */
module DirectoryProperties {
  import opened Common
  import opened Users
  import opened Directory

  /** Inputs whose names are pairwise distinct (nulls aside). */
  predicate DistinctInputNames(input: seq<Option<User>>)
  {
    forall i, j :: 0 <= i < j < |input| && input[i].Some? && input[j].Some? ==>
      input[i].value.userName != input[j].value.userName
  }

  /** Every non-null input whose name was absent is merged. */
  lemma {:induction false} NewUsersComplete(input: seq<Option<User>>, present: seq<User>, i: nat)
    requires i < |input| && input[i].Some? && !HasName(present, input[i].value.userName)
    ensures input[i].value in NewUsers(input, present)
  {
    if i > 0 {
      NewUsersComplete(input[1..], present, i - 1);
    }
  }

  /** The merge keeps input order: merging a concatenation merges each part in turn. */
  lemma {:induction false} NewUsersConcat(a: seq<Option<User>>, b: seq<Option<User>>, present: seq<User>)
    ensures NewUsers(a + b, present) == NewUsers(a, present) + NewUsers(b, present)
  {
    if a != [] {
      assert (a + b)[1..] == a[1..] + b;
      NewUsersConcat(a[1..], b, present);
    } else {
      assert a + b == b;
    }
  }

  /** `addAllDistinct` never re-adds a name already in the list. */
  lemma NewUsersAreNew(input: seq<Option<User>>, present: seq<User>, u: User)
    requires u in NewUsers(input, present)
    ensures !HasName(present, u.userName) && Some(u) in input
  {
  }

  /** The names merged in are pairwise distinct whenever the input's names are. */
  lemma {:induction false} NewUsersDistinct(input: seq<Option<User>>, present: seq<User>)
    requires DistinctInputNames(input)
    ensures DistinctNames(NewUsers(input, present))
  {
    if input != [] {
      assert DistinctInputNames(input[1..]) by {
        forall i, j | 0 <= i < j < |input[1..]| && input[1..][i].Some? && input[1..][j].Some?
          ensures input[1..][i].value.userName != input[1..][j].value.userName
        {
          assert input[1..][i] == input[i + 1] && input[1..][j] == input[j + 1];
        }
      }
      NewUsersDistinct(input[1..], present);
      var rest := NewUsers(input[1..], present);
      if input[0].Some? && !HasName(present, input[0].value.userName) {
        forall k | 0 <= k < |rest| ensures rest[k].userName != input[0].value.userName {
          assert Some(rest[k]) in input[1..];
          var j :| 0 <= j < |input[1..]| && input[1..][j] == Some(rest[k]);
          assert input[j + 1] == Some(rest[k]);
        }
      }
    }
  }

  /**
   * Merging keeps names unique when the list and the input each have unique names. Without the
   * second condition it may not: see `SameNameTwiceBothMerged`.
   */
  lemma MergeKeepsDistinct(input: seq<Option<User>>, present: seq<User>)
    requires DistinctNames(present) && DistinctInputNames(input)
    ensures DistinctNames(present + NewUsers(input, present))
  {
    var added := NewUsers(input, present);
    NewUsersDistinct(input, present);
    var all := present + added;
    forall i, j | 0 <= i < j < |all| ensures all[i].userName != all[j].userName {
      if j >= |present| && i < |present| {
        assert all[j] in added;
        assert !HasName(present, all[j].userName);
        assert all[i] == present[i];
      } else if i >= |present| {
        assert all[i] == added[i - |present|] && all[j] == added[j - |present|];
      }
    }
  }

  /** The presence test looks only at the list before the call, so two new same-named users are both appended. */
  lemma SameNameTwiceBothMerged(a: User, b: User, present: seq<User>)
    requires a.userName == b.userName && !HasName(present, a.userName)
    ensures NewUsers([Some(a), Some(b)], present) == [a, b]
    ensures !DistinctNames(present + [a, b])
  {
    assert [Some(a), Some(b)][1..] == [Some(b)];
    assert [Some(b)][1..] == [];
    var all := present + [a, b];
    assert all[|present|] == a && all[|present| + 1] == b;
  }

  /** Removal keeps every entry with another name. */
  lemma {:induction false} WithoutNameKeepsOthers(users: seq<User>, name: Bytes, u: User)
    requires u in users && u.userName != name
    ensures u in WithoutName(users, name)
  {
    if users[0] != u {
      WithoutNameKeepsOthers(users[1..], name, u);
    }
  }

  /** Removing an absent name is a no-op. */
  lemma {:induction false} WithoutAbsentName(users: seq<User>, name: Bytes)
    requires !HasName(users, name)
    ensures WithoutName(users, name) == users
  {
    if users != [] {
      assert !HasName(users[1..], name) by {
        forall i | 0 <= i < |users[1..]| ensures users[1..][i].userName != name {
          assert users[1..][i] == users[i + 1];
        }
      }
      WithoutAbsentName(users[1..], name);
      assert users == [users[0]] + users[1..];
    }
  }

  /** Removal keeps the survivors' relative order: it distributes over concatenation. */
  lemma {:induction false} WithoutNameConcat(a: seq<User>, b: seq<User>, name: Bytes)
    ensures WithoutName(a + b, name) == WithoutName(a, name) + WithoutName(b, name)
  {
    if a != [] {
      assert (a + b)[1..] == a[1..] + b;
      WithoutNameConcat(a[1..], b, name);
    } else {
      assert a + b == b;
    }
  }

  /** Removal preserves unique names. */
  lemma {:induction false} WithoutNameDistinct(users: seq<User>, name: Bytes)
    requires DistinctNames(users)
    ensures DistinctNames(WithoutName(users, name))
  {
    if users != [] {
      assert DistinctNames(users[1..]) by {
        forall i, j | 0 <= i < j < |users[1..]| ensures users[1..][i].userName != users[1..][j].userName {
          assert users[1..][i] == users[i + 1] && users[1..][j] == users[j + 1];
        }
      }
      WithoutNameDistinct(users[1..], name);
      var rest := WithoutName(users[1..], name);
      forall k | 0 <= k < |rest| ensures rest[k].userName != users[0].userName {
        assert rest[k] in users[1..];
        var j :| 0 <= j < |users[1..]| && users[1..][j] == rest[k];
        assert users[j + 1] == rest[k];
      }
    }
  }

  /** The display string grows by ", " and the new name when a user is appended to a non-empty list. */
  lemma {:induction false} JoinNamesAppend(users: seq<User>, u: User)
    requires users != []
    ensures JoinNames(users + [u]) == JoinNames(users) + SEPARATOR + u.userName
  {
    if |users| == 1 {
      assert (users + [u])[1..] == [u];
    } else {
      assert (users + [u])[1..] == users[1..] + [u];
      JoinNamesAppend(users[1..], u);
    }
  }
}
