/**
 * The in-memory session store as the service runs it: two maps updated in place. Every
 * method is tied to the function of MemoryStore that specifies it.
 */
module InMemoryStore {
  import opened SessionModel
  import Spec = MemoryStore

  /** A record of byHash; only `used` ever changes. */
  class SessionRecord {
    const tokenHash: string
    const familyId: string
    const userId: string
    const expiresAt: int
    var used: bool

    constructor (tokenHash: string, familyId: string, userId: string, expiresAt: int)
      ensures this.tokenHash == tokenHash && Value() == Token(familyId, userId, expiresAt, false)
    {
      this.tokenHash, this.familyId, this.userId, this.expiresAt := tokenHash, familyId, userId, expiresAt;
      used := false;
    }

    function Value(): Token
      reads this
    {
      Token(familyId, userId, expiresAt, used)
    }
  }

  class InMemorySessionStore {
    const ttlSeconds: int
    var byHash: map<string, SessionRecord>
    /** The inverse index: what to delete when a family is revoked. */
    var families: map<string, set<string>>

    /** Each record sits under its own hash, so no two hashes share a record. */
    ghost predicate Keyed()
      reads this
    {
      forall h | h in byHash :: byHash[h].tokenHash == h
    }

    ghost function View(): Spec.State
      reads this, byHash.Values
    {
      Spec.State(map h | h in byHash :: byHash[h].Value(), families)
    }

    ghost predicate Valid()
      reads this, byHash.Values
    {
      Keyed() && Spec.Inv(View())
    }

    constructor (ttlSeconds: int)
      ensures this.ttlSeconds == ttlSeconds && Valid() && View() == Spec.EMPTY && byHash == map[]
    {
      this.ttlSeconds := ttlSeconds;
      byHash, families := map[], map[];
    }

    method CreateSession(now: int, userId: string, familyId: string, drawn: string) returns (issued: IssuedRefreshToken)
      requires Valid() && drawn !in byHash && familyId !in families
      modifies this
      ensures Valid() && fresh(byHash.Values - old(byHash.Values))
      ensures (View(), Opened(issued)) == Spec.CreateSession(old(View()), ttlSeconds, now, userId, familyId, drawn)
    {
      issued := Issue(now, userId, familyId, drawn);
      Spec.IssueKeepsInv(old(View()), ttlSeconds, now, userId, familyId, drawn);
    }

    method Rotate(now: int, presented: string, drawn: string) returns (result: RotationResult)
      requires Valid() && drawn !in byHash
      modifies this, byHash.Values
      ensures Valid() && fresh(byHash.Values - old(byHash.Values))
      ensures (View(), result) == Spec.Rotate(old(View()), ttlSeconds, now, presented, drawn)
    {
      ghost var s := View();
      Spec.PerformKeepsInv(s, ttlSeconds, now, Op.Rotate(presented, drawn));
      if presented !in byHash {
        return Invalid;
      }
      var record := byHash[presented];
      if record.used {
        RevokeFamily(record.familyId);
        return ReuseDetected(record.userId, record.familyId);
      }
      if now > record.expiresAt {
        Remove(record);
        return Expired;
      }
      record.used := true;
      assert View() == Spec.Retire(s, presented);
      var refresh := Issue(now, record.userId, record.familyId, drawn);
      return Rotated(record.userId, record.familyId, refresh);
    }

    method Revoke(presented: string)
      requires Valid()
      modifies this
      ensures Valid() && byHash.Values <= old(byHash.Values)
      ensures View() == Spec.Revoke(old(View()), presented)
    {
      Spec.PerformKeepsInv(View(), ttlSeconds, 0, Op.Revoke(presented));
      if presented in byHash {
        RevokeFamily(byHash[presented].familyId);
      }
    }

    method RevokeUser(userId: string)
      requires Valid()
      modifies this
      ensures Valid() && byHash.Values <= old(byHash.Values)
      ensures View() == Spec.RevokeUser(old(View()), userId)
    {
      ghost var s := View();
      var familyIds := FamiliesOf(userId);
      ghost var burnt: set<string> := {};
      while familyIds != {}
        invariant burnt + familyIds == Spec.FamiliesOf(s, userId) && burnt !! familyIds
        invariant Keyed() && byHash.Values <= old(byHash.Values)
        invariant View() == Spec.RevokeFamilies(s, burnt)
        decreases familyIds
      {
        var familyId :| familyId in familyIds;
        RevokeFamily(familyId);
        Spec.RevokeOneMore(s, burnt, familyId);
        burnt, familyIds := burnt + {familyId}, familyIds - {familyId};
      }
      assert burnt == Spec.FamiliesOf(s, userId);
      Spec.RevokeFamiliesKeepsInv(s, Spec.FamiliesOf(s, userId));
    }

    /** The first loop of `revokeUser`: the families that hold a record of the user. */
    method FamiliesOf(userId: string) returns (familyIds: set<string>)
      ensures familyIds == Spec.FamiliesOf(View(), userId)
    {
      familyIds := {};
      ghost var s := View();
      var rest := byHash.Keys;
      while rest != {}
        invariant rest <= byHash.Keys
        invariant familyIds
                  == set h | h in s.byHash && h !in rest && s.byHash[h].userId == userId :: s.byHash[h].familyId
        decreases rest
      {
        var h :| h in rest;
        if byHash[h].userId == userId {
          familyIds := familyIds + {byHash[h].familyId};
        }
        rest := rest - {h};
      }
    }

    method Issue(now: int, userId: string, familyId: string, drawn: string) returns (issued: IssuedRefreshToken)
      requires Keyed() && drawn !in byHash
      modifies this
      ensures Keyed() && fresh(byHash.Values - old(byHash.Values))
      ensures View() == Spec.Issue(old(View()), ttlSeconds, now, userId, familyId, drawn)
      ensures issued == IssuedRefreshToken(drawn, familyId, now + ttlSeconds)
    {
      var expiresAt := now + ttlSeconds;
      Insert(drawn, familyId, userId, expiresAt);
      Enlist(drawn, familyId);
      return IssuedRefreshToken(drawn, familyId, expiresAt);
    }

    method Enlist(tokenHash: string, familyId: string)
      modifies `families
      ensures families == old(families)[familyId :=
                            (if familyId in old(families) then old(families)[familyId] else {}) + {tokenHash}]
    {
      if familyId !in families {
        families := families[familyId := {}];
      }
      families := families[familyId := families[familyId] + {tokenHash}];
    }

    method Insert(drawn: string, familyId: string, userId: string, expiresAt: int)
      requires Keyed() && drawn !in byHash
      modifies `byHash
      ensures Keyed() && fresh(byHash.Values - old(byHash.Values))
      ensures View().byHash == old(View().byHash)[drawn := Token(familyId, userId, expiresAt, false)]
    {
      var record := new SessionRecord(drawn, familyId, userId, expiresAt);
      byHash := byHash[drawn := record];
    }

    method RevokeFamily(familyId: string)
      requires Keyed()
      modifies this
      ensures Keyed() && byHash.Values <= old(byHash.Values)
      ensures View() == Spec.RevokeFamily(old(View()), familyId)
    {
      if familyId !in families {
        return;
      }
      var family := families[familyId];
      var rest := family;
      while rest != {}
        invariant rest <= family && families == old(families)
        invariant byHash == old(byHash) - (family - rest)
        decreases rest
      {
        var tokenHash :| tokenHash in rest;
        byHash := byHash - {tokenHash};
        rest := rest - {tokenHash};
      }
      families := families - {familyId};
    }

    method Remove(record: SessionRecord)
      requires Keyed() && record.tokenHash in byHash && byHash[record.tokenHash] == record
      modifies this
      ensures Keyed() && byHash.Values <= old(byHash.Values)
      ensures View() == Spec.Remove(old(View()), record.tokenHash)
    {
      byHash := byHash - {record.tokenHash};
      if record.familyId in families {
        families := families[record.familyId := families[record.familyId] - {record.tokenHash}];
      }
    }
  }
}
