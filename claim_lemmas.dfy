/** What the claim operations do to the tables once their staged changes are committed.
    The catalog entries are shared: two users' junction rows may refer to one entry. */
module ClaimLemmas {
  import opened Outcomes
  import opened Entities
  import opened Queries
  import opened Persistence

  /** The catalog ids a batch of ReplaceClaimAsync updates writes to. */
  function RewrittenIds(matched: seq<UserClaimRow>): set<int> {
    set row | row in matched :: row.claimEntityId
  }

  /** A claim list with every occurrence of claim replaced by newClaim. */
  function Substituted(cs: seq<Claim>, claim: Claim, newClaim: Claim): (r: seq<Claim>)
    ensures |r| == |cs|
  {
    seq(|cs|, k requires 0 <= k < |cs| => if cs[k] == claim then newClaim else cs[k])
  }

  /** Committing ReplaceClaimAsync's updates rewrites exactly the catalog entries the
      matched rows refer to, and touches no other table. */
  lemma {:induction false} FlushReplaceChanges(t: Tables, matched: seq<UserClaimRow>, newClaim: Claim)
    ensures var t' := Flush(t, ReplaceChanges(matched, newClaim));
            t'.users == t.users && t'.logins == t.logins && t'.userClaims == t.userClaims &&
            t'.catalog == map id | id in t.catalog :: if id in RewrittenIds(matched) then newClaim else t.catalog[id]
    decreases |matched|
  {
    var cs := ReplaceChanges(matched, newClaim);
    if matched == [] {
      assert cs == [];
      assert t.catalog == map id | id in t.catalog :: t.catalog[id];
    } else {
      var k0 := matched[0].claimEntityId;
      assert cs[0] == SetClaimEntity(k0, newClaim);
      assert cs[1..] == ReplaceChanges(matched[1..], newClaim);
      var t1 := Apply(t, cs[0]);
      FlushReplaceChanges(t1, matched[1..], newClaim);
      assert RewrittenIds(matched) == {k0} + RewrittenIds(matched[1..]) by {
        assert forall row :: row in matched <==> row == matched[0] || row in matched[1..];
      }
    }
  }

  /** After ReplaceClaimAsync for user uid is committed, any user w keeps the same rows,
      and each of w's claims is the new claim exactly where its row refers to an entry
      one of uid's matched rows refers to. */
  lemma ReplaceClaimEffect(t: Tables, uid: Guid, claim: Claim, newClaim: Claim, w: Guid)
    ensures var matched := MatchedRows(t, uid, claim);
            var t' := Flush(t, ReplaceChanges(matched, newClaim));
            UserRows(t', w) == UserRows(t, w) &&
            |ClaimsOf(t', w)| == |ClaimsOf(t, w)| &&
            forall k :: 0 <= k < |ClaimsOf(t, w)| ==>
              ClaimsOf(t', w)[k] ==
                if UserRows(t, w)[k].claimEntityId in RewrittenIds(matched) then newClaim else ClaimsOf(t, w)[k]
  {
    var matched := MatchedRows(t, uid, claim);
    var t' := Flush(t, ReplaceChanges(matched, newClaim));
    FlushReplaceChanges(t, matched, newClaim);
    FilterCongruence(t.userClaims,
                     (row: UserClaimRow) => row.userId == w && row.claimEntityId in t'.catalog,
                     (row: UserClaimRow) => row.userId == w && row.claimEntityId in t.catalog);
  }

  /** For the user it is called for, ReplaceClaimAsync replaces every occurrence of the
      old claim by the new one and leaves the user's other claims as they were. */
  lemma ReplaceRewritesOwnClaims(t: Tables, uid: Guid, claim: Claim, newClaim: Claim)
    ensures ClaimsOf(Flush(t, ReplaceChanges(MatchedRows(t, uid, claim), newClaim)), uid) ==
            Substituted(ClaimsOf(t, uid), claim, newClaim)
  {
    var matched := MatchedRows(t, uid, claim);
    var t' := Flush(t, ReplaceChanges(matched, newClaim));
    ReplaceClaimEffect(t, uid, claim, newClaim, uid);
    var rows := UserRows(t, uid);
    var p := (row: UserClaimRow) => row.claimEntityId in t.catalog && t.catalog[row.claimEntityId] == claim;
    forall k | 0 <= k < |rows|
      ensures rows[k].claimEntityId in RewrittenIds(matched) <==> ClaimsOf(t, uid)[k] == claim
    {
      var id := rows[k].claimEntityId;
      if id in RewrittenIds(matched) {
        var m :| m in matched && m.claimEntityId == id;
        FilterMembership(rows, p, m);
      }
      if ClaimsOf(t, uid)[k] == claim {
        FilterMembership(rows, p, rows[k]);
      }
    }
  }

  /** The consequence of shared catalog entries: when uid and another user v refer to
      one entry holding claim, replacing uid's claim gives v the new claim too. */
  lemma ReplaceLeaksToSharingUsers(t: Tables, uid: Guid, v: Guid, id: int, claim: Claim, newClaim: Claim)
    requires UserClaimRow(uid, id) in t.userClaims && UserClaimRow(v, id) in t.userClaims
    requires id in t.catalog && t.catalog[id] == claim
    ensures var t' := Flush(t, ReplaceChanges(MatchedRows(t, uid, claim), newClaim));
            id in t'.catalog && t'.catalog[id] == newClaim && newClaim in ClaimsOf(t', v)
  {
    var matched := MatchedRows(t, uid, claim);
    var t' := Flush(t, ReplaceChanges(matched, newClaim));
    FlushReplaceChanges(t, matched, newClaim);
    var own := UserClaimRow(uid, id);
    FilterMembership(t.userClaims, (row: UserClaimRow) => row.userId == uid && row.claimEntityId in t.catalog, own);
    FilterMembership(UserRows(t, uid), (row: UserClaimRow) => row.claimEntityId in t.catalog && t.catalog[row.claimEntityId] == claim, own);
    assert id in RewrittenIds(matched);
    var theirs := UserClaimRow(v, id);
    FilterMembership(t'.userClaims, (row: UserClaimRow) => row.userId == v && row.claimEntityId in t'.catalog, theirs);
    var rows := UserRows(t', v);
    var k :| 0 <= k < |rows| && rows[k] == theirs;
    assert ClaimsOf(t', v)[k] == newClaim;
  }

  /** A concrete instance: alice and bob share catalog entry 7; replacing alice's
      ("role", "admin") with ("role", "guest") changes bob's claim as well. */
  lemma SharedEntryExample()
    ensures var alice, bob := Guid(1), Guid(2);
            var t := Tables([], [], [UserClaimRow(alice, 7), UserClaimRow(bob, 7)], map[7 := Claim("role", "admin")]);
            var t' := Flush(t, ReplaceChanges(MatchedRows(t, alice, Claim("role", "admin")), Claim("role", "guest")));
            ClaimsOf(t, bob) == [Claim("role", "admin")] && ClaimsOf(t', bob) == [Claim("role", "guest")]
  {
    var alice, bob := Guid(1), Guid(2);
    var t := Tables([], [], [UserClaimRow(alice, 7), UserClaimRow(bob, 7)], map[7 := Claim("role", "admin")]);
    var matched := MatchedRows(t, alice, Claim("role", "admin"));
    var t' := Flush(t, ReplaceChanges(matched, Claim("role", "guest")));
    var p := (row: UserClaimRow) => row.userId == bob && row.claimEntityId in t.catalog;
    assert t.userClaims[1..] == [UserClaimRow(bob, 7)];
    assert t.userClaims[1..][1..] == [];
    assert Filter(t.userClaims[1..][1..], p) == [];
    assert Filter(t.userClaims[1..], p) == [UserClaimRow(bob, 7)];
    assert Filter(t.userClaims, p) == [UserClaimRow(bob, 7)];
    assert UserRows(t, bob) == [UserClaimRow(bob, 7)];
    ReplaceLeaksToSharingUsers(t, alice, bob, 7, Claim("role", "admin"), Claim("role", "guest"));
    ReplaceClaimEffect(t, alice, Claim("role", "admin"), Claim("role", "guest"), bob);
  }
}
