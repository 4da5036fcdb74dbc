/** rtcp_map: sockets reserved under a token, over ur_map. Every method is one critical section, and is the step of
    the protocol of the same name; only the expiry handler is a sequence of them. */
module RtcpMap {
  import opened Khash
  import opened UrMap
  import opened RtcpProtocol

  /** The list after the entries in the first k buckets have been looked at. */
  ghost predicate Listed(at: map<Token, nat>, table: Table, now: Moment, k: nat, picked: seq<Token>) {
    && at.Keys == table.Keys
    && |picked| <= MAX_TOKEN_DEL
    && (forall i :: 0 <= i < |picked| ==> Expired(table, picked[i], now) && picked[i] in at && at[picked[i]] < k)
    && (forall i, j :: 0 <= i < j < |picked| ==> picked[i] != picked[j])
    && (|picked| < MAX_TOKEN_DEL ==>
          forall token :: Expired(table, token, now) && token in at && at[token] < k ==> token in picked)
  }

  lemma ListedOne(at: map<Token, nat>, table: Table, now: Moment, k: nat, picked: seq<Token>, hit: Lookup<Token>)
    requires Listed(at, table, now, k, picked)
    requires hit.Found? ==> hit.value in at && at[hit.value] == k && Expired(table, hit.value, now)
    requires forall token :: Expired(table, token, now) && token in at && at[token] == k ==> hit == Found(token)
    ensures Listed(at, table, now, k + 1,
                   if hit.Found? && |picked| < MAX_TOKEN_DEL then picked + [hit.value] else picked)
  {
  }

  lemma ListedIsLegal(at: map<Token, nat>, table: Table, now: Moment, k: nat, picked: seq<Token>)
    requires Listed(at, table, now, k, picked) && forall token :: token in at ==> at[token] < k
    ensures LegalScan(table, now, picked)
  {
  }

  /** The table after the first i tokens of a scan's list have been deleted. */
  ghost predicate Worked(table: Table, now: Moment, picked: seq<Token>, i: nat, table': Table) {
    && i <= |picked| && LegalScan(table, now, picked)
    && |table'| + i == |table|
    && (forall token :: token in table' ==> token in table && table'[token] == table[token])
    && (forall token :: token in table && token !in picked[..i] ==> token in table')
    && (forall token :: token in table' ==> token !in picked[..i])
  }

  lemma WorkedNone(table: Table, now: Moment, picked: seq<Token>)
    requires LegalScan(table, now, picked)
    ensures Worked(table, now, picked, 0, table)
  {
  }

  lemma WorkedOne(table: Table, now: Moment, picked: seq<Token>, i: nat, table': Table)
    requires Worked(table, now, picked, i, table') && i < |picked|
    ensures picked[i] in table && picked[i] in table' && table'[picked[i]] == table[picked[i]]
    ensures Worked(table, now, picked, i + 1, table' - {picked[i]})
  {
  }

  lemma WorkedAll(table: Table, now: Moment, picked: seq<Token>, table': Table)
    requires Worked(table, now, picked, |picked|, table')
    ensures forall token :: token in table' ==> token in table && table'[token] == table[token]
    ensures forall token :: token in table && token !in table' ==> Expired(table, token, now)
    ensures |picked| < MAX_TOKEN_DEL ==> forall token :: token in table' ==> !Expired(table', token, now)
    ensures forall i, j :: 0 <= i < j < |picked| ==> picked[i] != picked[j]
    ensures forall token :: token in picked <==> token in table && token !in table'
  {
    assert picked[..|picked|] == picked;
  }

  /** The sockets of these tokens, in order. */
  ghost predicate SocketsOf(table: Table, tokens: seq<Token>, sockets: seq<Socket>) {
    && |sockets| == |tokens|
    && forall i :: 0 <= i < |tokens| ==> tokens[i] in table && table[tokens[i]].s == sockets[i]
  }

  lemma AfterScan(st: State, h: nat, now: Moment, picked: seq<Token>)
    requires Enabled(st, Scan(h, now, picked))
    ensures var st' := Next(st, Scan(h, now, picked));
      st'.table == st.table && h in st'.handlers && st'.handlers[h].tokens == picked
  {
  }

  lemma AfterDel(st: State, h: nat)
    requires Enabled(st, RtcpProtocol.Del(h))
    ensures var st', tokens := Next(st, RtcpProtocol.Del(h)), st.handlers[h].tokens;
      st'.table == st.table - {tokens[0]} && h in st'.handlers && st'.handlers[h].tokens == tokens[1..]
  {
  }

  class RtcpMap {
    const map_: UrMap<Alloc>
    ghost var st: State
    ghost var puts: Puts    // when each entry was put

    ghost predicate Valid()
      reads this, map_, map_.h, map_.h.flags, map_.h.flags.words, map_.h.keys, map_.h.vals
    {
      map_.Valid() && st.table == map_.h.m && PutThen(st.table, puts)
    }

    /** rtcp_map_create */
    constructor ()
      ensures Valid() && st == INIT && puts == map[]
      ensures fresh(map_) && fresh(map_.h) && fresh(map_.h.flags) && fresh(map_.h.flags.words)
      ensures fresh(map_.h.keys) && fresh(map_.h.vals)
    {
      map_ := new UrMap<Alloc>();
      st, puts := INIT, map[];
    }

    /** rtcp_map_put */
    method Reserve(token: Token, s: Socket, now: Moment) returns (ok: bool)
      requires Valid()
      modifies this, map_.h, map_.h.flags, map_.h.flags.words, map_.h.keys, map_.h.vals
      ensures Valid()
      ensures ok <==> token in old(st.table) || |old(st.table)| < MAX_BUCKETS
      ensures ok ==> st == Next(old(st), Put(token, s, now)) && puts == old(puts)[token := now]
      ensures ok ==>
        var lost := if token in old(st.table) then [Dropped(old(st.table)[token].s)] else [];
        st.log == old(st.log) + lost + [Reserved(s)]
      ensures !ok ==> exists victim | Enabled(old(st), PutFull(token, victim)) ::
        st == Next(old(st), PutFull(token, victim)) && st.log == old(st.log) + [Dropped(old(st.table)[victim].s)]
    {
      hide KHash.Valid, PutThen, Expiry;
      PutThenMore(st.table, puts, token, s, now);
      var value := Alloc(s, Expiry(now));
      ok := map_.Put(token, value);
      if ok {
        st, puts := Next(st, Put(token, s, now)), puts[token := now];
      } else {
        ghost var victim :| victim in old(st.table) && map_.h.m == old(st.table) - {victim};
        assert Enabled(st, PutFull(token, victim));
        PutThenLess(st.table, puts, victim);
        st, puts := Next(st, PutFull(token, victim)), puts - {victim};
      }
    }

    /** rtcp_map_get: the entry goes, its socket stays open and is the caller's. */
    method Fetch(token: Token) returns (r: Lookup<Socket>)
      requires Valid()
      modifies this, map_.h, map_.h.flags, map_.h.flags.words
      ensures Valid() && st == Next(old(st), Get(token)) && puts == old(puts) - {token}
      ensures r == if token in old(st.table) then Found(old(st.table)[token].s) else Missing
      ensures st.log == old(st.log) + if r.Found? then [Returned(r.value)] else []
    {
      hide KHash.Valid, PutThen;
      PutThenLess(st.table, puts, token);
      var value := map_.Get(token);
      if value.Missing? {
        return Missing;
      }
      var _ := map_.Del(token);
      st, puts := Next(st, Get(token)), puts - {token};
      return Found(value.value.s);
    }

    /** timeout_check for the entry in bucket k: is it to be put on the list? */
    method TimeoutCheck(k: nat, now: Moment) returns (hit: Lookup<Token>)
      requires Valid() && k < map_.h.nBuckets
      ensures hit.Found? ==> hit.value in map_.h.at && map_.h.at[hit.value] == k && Expired(st.table, hit.value, now)
      ensures forall token :: Expired(st.table, token, now) && token in map_.h.at && map_.h.at[token] == k ==>
        hit == Found(token)
    {
      hide KHash.Valid;
      map_.h.Located();
      forall token | token in st.table && map_.h.at[token] == k
        ensures map_.h.flags.st[k].Live? && map_.h.keys[k] == token && map_.h.vals[k] == st.table[token]
      {
        map_.h.AtKey(token);
      }
      var exist := map_.h.Exist(k);
      if exist {
        map_.h.InBucket(k);
        if TimeBefore(map_.h.vals[k].t, now % CLOCK) {
          return Found(map_.h.keys[k]);
        }
      }
      return Missing;
    }

    /** ur_map_foreach_arg with timeout_check: list expired tokens, in the order of the buckets, as far as the
        array goes. */
    method CollectExpired(now: Moment) returns (tokens: array<Token>, tn: nat)
      requires Valid()
      ensures Valid() && fresh(tokens) && tn <= tokens.Length && LegalScan(st.table, now, tokens[..tn])
      ensures PickedInTime(puts, now, tokens[..tn])
    {
      hide KHash.Valid, Expired;
      tokens := new Token[MAX_TOKEN_DEL];
      map_.h.Located();
      tn := 0;
      var k := 0;
      while k < map_.h.nBuckets
        invariant 0 <= k <= map_.h.nBuckets && tn <= MAX_TOKEN_DEL
        invariant Valid() && Listed(map_.h.at, st.table, now, k, tokens[..tn])
      {
        var hit := TimeoutCheck(k, now);
        ghost var before := tokens[..tn];
        if hit.Found? && tn < MAX_TOKEN_DEL {
          tokens[tn] := hit.value;
          tn := tn + 1;
          assert tokens[..tn] == before + [hit.value];
        }
        ListedOne(map_.h.at, st.table, now, k, before, hit);
        k := k + 1;
      }
      ListedIsLegal(map_.h.at, st.table, now, k, tokens[..tn]);
      ScanInTime(st.table, puts, now, tokens[..tn]);
    }

    /** The first half of rtcp_map_timeout_handler. */
    method ScanExpired(h: nat, now: Moment) returns (tokens: array<Token>, tn: nat)
      requires Valid() && h !in st.handlers
      modifies this
      ensures Valid() && fresh(tokens) && tn <= tokens.Length
      ensures PickedInTime(puts, now, tokens[..tn]) && puts == old(puts)
      ensures LegalScan(old(st.table), now, tokens[..tn]) && st == Next(old(st), Scan(h, now, tokens[..tn]))
    {
      hide KHash.Valid, LegalScan;
      tokens, tn := CollectExpired(now);
      st := Next(st, Scan(h, now, tokens[..tn]));
    }

    /** rtcp_map_del, for the next token on the list of handler h: the socket is closed. */
    method Expire(h: nat, token: Token) returns (closed: Lookup<Socket>)
      requires Valid() && h in st.handlers && st.handlers[h].tokens != [] && st.handlers[h].tokens[0] == token
      modifies this, map_.h, map_.h.flags, map_.h.flags.words
      ensures Valid() && st == Next(old(st), Del(h)) && map_.h.flags == old(map_.h.flags)
      ensures puts == old(puts) - {token}
      ensures closed == if token in old(st.table) then Found(old(st.table)[token].s) else Missing
      ensures st.log == old(st.log) + if closed.Found? then [Closed(closed.value)] else []
    {
      hide KHash.Valid, PutThen;
      PutThenLess(st.table, puts, token);
      var value := map_.Del(token);
      st, puts := Next(st, Del(h)), puts - {token};
      closed := if value.Found? then Found(value.value.s) else Missing;
    }

    /** rtcp_map_timeout_handler when no other thread comes between: what was not expired is still there, every expired
        entry goes, unless there are more than fit the list, and the sockets closed are those of the entries gone. */
    method TimeoutHandler(h: nat, now: Moment) returns (closed: seq<Socket>, ghost gone: seq<Token>)
      requires Valid() && h !in st.handlers
      modifies this, map_.h, map_.h.flags, map_.h.flags.words
      ensures Valid()
      ensures forall token :: token in st.table ==> token in old(st.table) && st.table[token] == old(st.table)[token]
      ensures forall token :: token in old(st.table) && token !in st.table ==> Expired(old(st.table), token, now)
      ensures |closed| < MAX_TOKEN_DEL ==> forall token :: token in st.table ==> !Expired(st.table, token, now)
      ensures forall token :: token in puts ==> token in old(puts) && puts[token] == old(puts)[token]
      ensures forall token | token in old(puts) && InReach(old(puts)[token], now) ::
        token !in puts ==> old(puts)[token] + 300 < now
      ensures |closed| < 1024 ==> forall token | token in puts && InReach(puts[token], now) :: now <= puts[token] + 300
      ensures forall token :: token in gone <==> token in old(st.table) && token !in st.table
      ensures SocketsOf(old(st.table), gone, closed) && forall i, j :: 0 <= i < j < |gone| ==> gone[i] != gone[j]
    {
      hide KHash.Valid, Expired, LegalScan, Worked, Next;
      var tokens, tn := ScanExpired(h, now);
      AfterScan(old(st), h, now, tokens[..tn]);
      WorkedNone(st.table, now, tokens[..tn]);
      gone := tokens[..tn];
      closed := ExpireAll(h, tokens[..tn], now, st.table);
      WorkedAll(old(st.table), now, tokens[..tn], st.table);
    }

    /** The second half: the tokens on the list, one by one. */
    method ExpireAll(h: nat, tokens: seq<Token>, now: Moment, ghost table: Table) returns (closed: seq<Socket>)
      requires Valid() && h in st.handlers && st.handlers[h].tokens == tokens
      requires Worked(table, now, tokens, 0, st.table)
      modifies this, map_.h, map_.h.flags, map_.h.flags.words
      ensures Valid() && Worked(table, now, tokens, |tokens|, st.table) && SocketsOf(table, tokens, closed)
      ensures forall token :: token in puts ==> token in old(puts) && puts[token] == old(puts)[token]
    {
      hide KHash.Valid, Expired, LegalScan, Worked, Next;
      closed := [];
      var i := 0;
      while i < |tokens|
        invariant 0 <= i <= |tokens| && Valid() && map_.h.flags == old(map_.h.flags)
        invariant h in st.handlers && st.handlers[h].tokens == tokens[i..]
        invariant forall token :: token in puts ==> token in old(puts) && puts[token] == old(puts)[token]
        invariant SocketsOf(table, tokens[..i], closed) && Worked(table, now, tokens, i, st.table)
      {
        WorkedOne(table, now, tokens, i, st.table);
        assert tokens[i..][1..] == tokens[i + 1..];
        AfterDel(st, h);
        var s := Expire(h, tokens[i]);
        closed := closed + [s.value];
        i := i + 1;
      }
    }
  }
}
