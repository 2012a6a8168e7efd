/** The users of a channel and the records of their addresses, as objects: users of one address share one record. */
module UserChannels {
  import opened VmRooms
  import opened TurnControllers
  import VoteTally

  class ChannelIpData {
    var voted: bool
    var references: int

    constructor ()
      ensures !voted && references == 0
    {
      voted, references := false, 0;
    }

    function Value(): IpData
      reads this
    {
      IpData(voted, references)
    }
  }

  class ChannelUser {
    const ip: IpBytes
    const registered: bool
    const admin: bool
    const ipData: ChannelIpData
    var vote: VoteData

    constructor (ip: IpBytes, registered: bool, admin: bool, ipData: ChannelIpData)
      ensures this.ip == ip && this.registered == registered && this.admin == admin && this.ipData == ipData
      ensures vote == NO_VOTE
    {
      this.ip, this.registered, this.admin, this.ipData, vote := ip, registered, admin, ipData, NO_VOTE;
    }

    function Value(): User
      reads this
    {
      User(ip, registered, admin, vote)
    }
  }

  class UserChannel {
    var users: map<Client, ChannelUser>
    var ipData: map<IpBytes, ChannelIpData>
    ghost var members: set<ChannelUser>          // every user object made so far
    ghost var records: set<ChannelIpData>        // every address record made so far
    ghost var userValues: map<Client, User>      // what the user objects hold
    ghost var ipValues: map<IpBytes, IpData>     // what the address records hold

    /** The user objects hold `userValues`, and no object serves two clients. */
    ghost predicate OwnUsers()
      reads this`users, this`userValues, this`members, members
    {
      && users.Keys == userValues.Keys
      && (forall c :: c in users ==> users[c] in members && users[c].Value() == userValues[c])
      && (forall c, d :: c in users && d in users && c != d ==> users[c] != users[d])
    }

    /** The address records hold `ipValues`, and no record serves two addresses. */
    ghost predicate OwnRecords()
      reads this`ipData, this`ipValues, this`records, records
    {
      && ipData.Keys == ipValues.Keys
      && (forall a :: a in ipData ==> ipData[a] in records && ipData[a].Value() == ipValues[a])
      && (forall a, b :: a in ipData && b in ipData && a != b ==> ipData[a] != ipData[b])
    }

    /** Every user but `leaving` holds the record of its address. */
    ghost predicate LinkedBut(leaving: set<Client>)
      reads this`users, this`ipData
    {
      forall c :: c in users && c !in leaving ==> users[c].ip in ipData && users[c].ipData == ipData[users[c].ip]
    }

    ghost predicate Valid()
      reads this, members, records
    {
      OwnRecords() && OwnUsers() && LinkedBut({}) && VoteTally.IpTableExact(userValues, ipValues)
    }

    /** As OwnUsers, but what `user` holds does not matter any more. */
    ghost predicate OwnUsersBut(user: Client)
      reads this`users, this`userValues, this`members, members
    {
      && users.Keys == userValues.Keys && user in users
      && (forall c :: c in users ==> users[c] in members && (c != user ==> users[c].Value() == userValues[c]))
      && (forall c, d :: c in users && d in users && c != d ==> users[c] != users[d])
    }

    /** `user` has given up its address record and is about to be erased. */
    ghost predicate ValidBut(user: Client)
      reads this, members, records
    {
      && OwnRecords() && OwnUsersBut(user) && LinkedBut({user})
      && VoteTally.IpTableExact(userValues - {user}, ipValues)
    }

    constructor ()
      ensures Valid() && fresh(this) && users == map[] && userValues == map[] && ipValues == map[]
      ensures members == {} && records == {}
    {
      users, ipData, members, records, userValues, ipValues := map[], map[], {}, {}, map[], map[];
      new;
      VoteTally.EmptyRoomIsExact<Client>(Settings(false, 0, false, 0, 0, false), 0);
    }

    /** The record of `ip`, created with no references if there is none. */
    method EntryFor(ip: IpBytes) returns (data: ChannelIpData)
      requires OwnRecords() && OwnUsers() && LinkedBut({})
      modifies this`ipData, this`ipValues, this`records
      ensures OwnRecords() && OwnUsers() && LinkedBut({}) && ip in ipData && ipData[ip] == data
      ensures data in old(records) || fresh(data)
      ensures fresh(records - old(records))
      ensures ipValues == if ip in old(ipValues) then old(ipValues) else old(ipValues)[ip := IpData(false, 0)]
    {
      if ip !in ipData {
        data := new ChannelIpData();
        ipData := ipData[ip := data];
        records := records + {data};
        ipValues := ipValues[ip := IpData(false, 0)];
      }
      data := ipData[ip];
    }

    method Refer(data: ChannelIpData, ip: IpBytes)
      requires OwnRecords() && OwnUsers() && ip in ipData && ipData[ip] == data
      modifies this`ipValues, data`references
      ensures OwnRecords() && OwnUsers()
      ensures ipValues == old(ipValues)[ip := old(ipValues)[ip].(references := old(ipValues)[ip].references + 1)]
    {
      data.references := data.references + 1;
      ipValues := ipValues[ip := data.Value()];
    }

    /** One more user refers to `ip`. */
    method Acquire(ip: IpBytes) returns (data: ChannelIpData)
      requires OwnRecords() && OwnUsers() && LinkedBut({})
      modifies this`ipData, this`ipValues, this`records, records
      ensures OwnRecords() && OwnUsers() && LinkedBut({}) && ip in ipData && ipData[ip] == data
      ensures ipValues == VmRooms.Acquire(old(ipValues), ip) && fresh(records - old(records))
    {
      data := EntryFor(ip);
      Refer(data, ip);
      assert ipValues == VmRooms.Acquire(old(ipValues), ip);
    }

    method Insert(user: Client, channelUser: ChannelUser)
      requires OwnUsers() && OwnRecords() && LinkedBut({}) && channelUser !in members
      requires channelUser.ip in ipData && channelUser.ipData == ipData[channelUser.ip]
      modifies this`users, this`members, this`userValues
      ensures OwnUsers() && OwnRecords() && LinkedBut({}) && ipValues == old(ipValues) && records == old(records)
      ensures users == old(users)[user := channelUser] && members == old(members) + {channelUser}
      ensures userValues == old(userValues)[user := channelUser.Value()]
    {
      users := users[user := channelUser];
      members := members + {channelUser};
      userValues := userValues[user := channelUser.Value()];
    }

    method AddUser(user: Client, ip: IpBytes, registered: bool, admin: bool)
      requires Valid() && user !in users
      modifies this, records
      ensures Valid()
      ensures users.Keys == old(users.Keys) + {user}
      ensures userValues == old(userValues)[user := User(ip, registered, admin, NO_VOTE)]
      ensures ipValues == VmRooms.Acquire(old(ipValues), ip)
      ensures fresh(members - old(members)) && fresh(records - old(records))
    {
      var data := Acquire(ip);
      var channelUser := new ChannelUser(ip, registered, admin, data);
      Insert(user, channelUser);
      VoteTally.JoinKeepsIpTable(old(userValues), old(ipValues), user, channelUser.Value());
    }

    /** One user fewer refers to `ip`; its record goes with the last one. */
    method DropReference(ip: IpBytes, data: ChannelIpData)
      requires OwnRecords() && ip in ipData && ipData[ip] == data
      modifies this`ipData, this`ipValues, data`references
      ensures OwnRecords() && ipValues == Release(old(ipValues), ip)
      ensures forall a :: a in ipData ==> a in old(ipData) && ipData[a] == old(ipData)[a]
    {
      data.references := data.references - 1;
      if data.references == 0 {
        ipData := ipData - {ip};
      }
      ipValues := Release(ipValues, ip);
    }

    /** `user` gives up the record of its address. */
    method ReleaseIp(user: Client)
      requires Valid() && user in users
      modifies this`ipData, this`ipValues, users[user].ipData
      ensures ValidBut(user) && ipValues == Release(old(ipValues), users[user].ip)
      ensures users == old(users) && userValues == old(userValues) && users[user].Value() == userValues[user]
      ensures members == old(members) && records == old(records)
    {
      DropReference(users[user].ip, users[user].ipData);
      VoteTally.LeaveKeepsIpTable(userValues, old(ipValues), user);
      forall c | c in users && c != user
        ensures users[c].ip in ipData
      {
        assert users[c].Value() == userValues[c];
        VoteTally.PresentIpIsListed(userValues - {user}, ipValues, c);
      }
    }

    method Erase(user: Client)
      requires ValidBut(user)
      modifies this`users, this`userValues
      ensures Valid() && users == old(users) - {user} && userValues == old(userValues) - {user}
      ensures ipValues == old(ipValues) && members == old(members) && records == old(records)
    {
      users := users - {user};
      userValues := userValues - {user};
    }

    /** The user object of `user` has been given another vote. */
    ghost method NoteVote(user: Client)
      requires user in users && users.Keys == userValues.Keys && OwnRecords() && LinkedBut({})
      requires VoteTally.IpTableExact(userValues, ipValues)
      requires forall c :: c in users ==> users[c] in members && (c != user ==> users[c].Value() == userValues[c])
      requires forall c, d :: c in users && d in users && c != d ==> users[c] != users[d]
      requires userValues[user] == users[user].Value().(vote := userValues[user].vote)
      modifies this`userValues
      ensures Valid() && userValues == old(userValues)[user := users[user].Value()]
    {
      VoteTally.VotingKeepsIpTable(userValues, ipValues, user, users[user].vote);
      userValues := userValues[user := users[user].Value()];
    }

    method FlagIp(user: Client)
      requires Valid() && user in users
      modifies this`ipValues, users[user].ipData
      ensures Valid() && ipValues == old(ipValues)[users[user].ip := old(ipValues)[users[user].ip].(voted := true)]
    {
      users[user].ipData.voted := true;
      VoteTally.FlaggingKeepsIpTable(userValues, ipValues, users[user].ip);
      ipValues := ipValues[users[user].ip := users[user].ipData.Value()];
    }

    /** Give every user object a fresh vote, and through it clear the record of its address. */
    method ResetObjects()
      requires forall c :: c in users ==> users[c] in members && users[c].ipData in records
      modifies members, records
      ensures unchanged(this)
      ensures forall c :: c in users ==> users[c].Value() == old(users[c].Value()).(vote := NO_VOTE)
      ensures forall c :: c in users ==> !users[c].ipData.voted
      ensures forall data :: data in records ==> data.references == old(data.references)
    {
      var rest := users.Keys;
      while rest != {}
        invariant rest <= users.Keys
        invariant forall c :: c in users && c !in rest ==> users[c].vote == NO_VOTE && !users[c].ipData.voted
        invariant forall data :: data in records ==> data.references == old(data.references)
      {
        var c :| c in rest;
        users[c].vote := NO_VOTE;
        users[c].ipData.voted := false;
        rest := rest - {c};
      }
    }

    ghost method NoteUsersReset()
      requires users.Keys == userValues.Keys
      requires forall c :: c in users ==> users[c] in members && users[c].Value() == userValues[c].(vote := NO_VOTE)
      requires forall c, d :: c in users && d in users && c != d ==> users[c] != users[d]
      modifies this`userValues
      ensures OwnUsers() && userValues == ClearedUsers(old(userValues))
    {
      userValues := ClearedUsers(userValues);
    }

    ghost method NoteRecordsReset(cleared: map<IpBytes, IpData>)
      requires ipData.Keys == cleared.Keys
      requires OwnUsers() && LinkedBut({}) && VoteTally.IpTableExact(userValues, cleared)
      requires forall a :: a in ipData ==> ipData[a] in records && ipData[a].Value() == cleared[a]
      requires forall a, b :: a in ipData && b in ipData && a != b ==> ipData[a] != ipData[b]
      modifies this`ipValues
      ensures Valid() && ipValues == cleared
    {
      ipValues := cleared;
    }

    lemma ListedIpsHaveUsers()
      requires Valid()
      ensures forall a :: a in ipData ==> exists c :: c in users && users[c].ipData == ipData[a]
    {
      VoteTally.ClearingKeepsIpTable(userValues, ipValues);
      forall a | a in ipData
        ensures exists c :: c in users && users[c].ipData == ipData[a]
      {
        var c :| c in UsersAt(userValues, a);
        assert users[c].Value() == userValues[c];
      }
    }

    /** Since every listed address has a user, going by way of the users reaches every record. */
    method ResetAll()
      requires Valid()
      modifies members, records
      ensures unchanged(this)
      ensures forall c :: c in users ==> users[c].Value() == userValues[c].(vote := NO_VOTE)
      ensures forall a :: a in ipData ==> ipData[a].Value() == ClearedIps(ipValues, userValues)[a]
    {
      VoteTally.ClearingKeepsIpTable(userValues, ipValues);
      ListedIpsHaveUsers();
      ResetObjects();
    }

    method ResetUsers()
      requires Valid()
      modifies this`userValues, members, records
      ensures OwnUsers() && userValues == ClearedUsers(old(userValues))
      ensures unchanged(this`users, this`ipData, this`ipValues, this`members, this`records) && LinkedBut({})
      ensures ipData.Keys == ClearedIps(ipValues, old(userValues)).Keys
      ensures forall a :: a in ipData ==> ipData[a] in records && ipData[a].Value() == ClearedIps(ipValues, old(userValues))[a]
      ensures forall a, b :: a in ipData && b in ipData && a != b ==> ipData[a] != ipData[b]
    {
      ResetAll();
      NoteUsersReset();
    }

    lemma ClearedTableIsExact()
      requires VoteTally.IpTableExact(userValues, ipValues)
      ensures VoteTally.IpTableExact(ClearedUsers(userValues), ClearedIps(ipValues, userValues))
    {
      VoteTally.ClearingKeepsIpTable(userValues, ipValues);
    }

    method ClearVotes()
      requires Valid()
      modifies this`userValues, this`ipValues, members, records
      ensures Valid() && members == old(members) && records == old(records)
      ensures userValues == ClearedUsers(old(userValues))
      ensures ipValues == ClearedIps(old(ipValues), old(userValues))
    {
      ghost var cleared := ClearedIps(ipValues, userValues);
      ClearedTableIsExact();
      ResetUsers();
      NoteRecordsReset(cleared);
    }
  }
}
