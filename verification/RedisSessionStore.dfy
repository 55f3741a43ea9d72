/**
 * The Redis session store as the service runs it: commands that update the shared keys in
 * place, and scripts that loop over set members. Every script is tied to the function of
 * RedisStore that specifies it. `now` is the reading of the clock the whole script sees.
 */
module RedisScripts {
  import opened SessionModel
  import Spec = RedisStore

  class RedisSessionStore {
    const ttlSeconds: int
    var refresh: Tokens
    var family: map<string, Spec.Members>
    var userfam: map<string, Spec.Members>

    ghost function View(): Spec.State
      reads this
    {
      Spec.State(refresh, family, userfam)
    }

    constructor (ttlSeconds: int)
      ensures this.ttlSeconds == ttlSeconds && View() == Spec.EMPTY
    {
      this.ttlSeconds := ttlSeconds;
      refresh, family, userfam := map[], map[], map[];
    }

    // ---------------------------------------------------------------- commands

    /** Redis answers for a key past its deadline as if it were absent; here it is dropped at once. */
    method Expire(now: int)
      modifies this
      ensures View() == Spec.Sweep(old(View()), now)
    {
      refresh := map h | h in refresh && now < refresh[h].expiresAt :: refresh[h];
      family := map f | f in family && now < family[f].deadline :: family[f];
      userfam := map u | u in userfam && now < userfam[u].deadline :: userfam[u];
    }

    /** DEL refresh:{h} for every member of family:{f}, then DEL family:{f}. */
    method DeleteFamily(familyId: string)
      modifies this
      ensures refresh == old(refresh) - Spec.MembersOf(old(family), familyId)
      ensures family == old(family) - {familyId} && userfam == old(userfam)
    {
      var members := Spec.MembersOf(family, familyId);
      var rest := members;
      while rest != {}
        invariant rest <= members && family == old(family) && userfam == old(userfam)
        invariant refresh == old(refresh) - (members - rest)
        decreases rest
      {
        var h :| h in rest;
        refresh := refresh - {h};
        rest := rest - {h};
      }
      family := family - {familyId};
    }

    // ---------------------------------------------------------------- the MULTI block and the scripts

    method CreateSession(now: int, userId: string, familyId: string, drawn: string) returns (issued: IssuedRefreshToken)
      modifies this
      ensures (View(), Opened(issued)) == Spec.Perform(old(View()), ttlSeconds, now, Create(userId, familyId, drawn))
    {
      Expire(now);
      var ttl := ttlSeconds;
      refresh := refresh[drawn := Token(familyId, userId, now + ttl, false)];
      family := Spec.Add(family, familyId, drawn, now + ttl);
      userfam := Spec.Add(userfam, userId, familyId, now + ttl);
      return IssuedRefreshToken(drawn, familyId, now + ttl);
    }

    method Rotate(now: int, presented: string, drawn: string) returns (result: RotationResult)
      modifies this
      ensures (View(), Rotation(result)) == Spec.Perform(old(View()), ttlSeconds, now, Op.Rotate(presented, drawn))
    {
      Expire(now);
      if presented !in refresh {
        return Invalid;
      }
      var familyId, userId, used := refresh[presented].familyId, refresh[presented].userId, refresh[presented].used;
      if used {
        DeleteFamily(familyId);
        userfam := Spec.Drop(userfam, userId, familyId);
        return ReuseDetected(userId, familyId);
      }
      refresh := refresh[presented := refresh[presented].(used := true)];
      refresh := refresh[drawn := Token(familyId, userId, now + ttlSeconds, false)];
      family := Spec.Add(family, familyId, drawn, now + ttlSeconds);
      return Rotated(userId, familyId, IssuedRefreshToken(drawn, familyId, now + ttlSeconds));
    }

    /** Answers whether a family was revoked. */
    method Revoke(now: int, presented: string) returns (revoked: bool)
      modifies this
      ensures View() == Spec.Perform(old(View()), ttlSeconds, now, Op.Revoke(presented)).0
      ensures revoked <==> presented in Spec.Sweep(old(View()), now).refresh
    {
      Expire(now);
      if presented !in refresh {
        return false;
      }
      var familyId, userId := refresh[presented].familyId, refresh[presented].userId;
      DeleteFamily(familyId);
      userfam := Spec.Drop(userfam, userId, familyId);
      return true;
    }

    /** Answers how many families were listed, dead ones included. */
    method RevokeUser(now: int, userId: string) returns (count: nat)
      modifies this
      ensures View() == Spec.Perform(old(View()), ttlSeconds, now, Op.RevokeUser(userId)).0
      ensures count == |Spec.MembersOf(Spec.Sweep(old(View()), now).userfam, userId)|
    {
      Expire(now);
      ghost var s := View();
      var fams := Spec.MembersOf(userfam, userId);
      var rest := fams;
      while rest != {}
        invariant rest <= fams
        invariant View() == Spec.BurnFamilies(s, fams - rest)
        decreases rest
      {
        var f :| f in rest;
        DeleteFamily(f);
        BurnOneMore(s, fams - rest, f);
        assert fams - rest + {f} == fams - (rest - {f});
        rest := rest - {f};
      }
      assert fams - rest == fams;
      userfam := userfam - {userId};
      return |fams|;
    }
  }

  /** Deleting the listed families one by one reaches the same keys in any order. */
  lemma BurnOneMore(s: Spec.State, done: set<string>, f: string)
    requires f !in done
    ensures var b := Spec.BurnFamilies(s, done);
            b.(refresh := b.refresh - Spec.MembersOf(b.family, f), family := b.family - {f})
              == Spec.BurnFamilies(s, done + {f})
  {
  }
}
