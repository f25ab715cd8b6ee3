/** The cache-backed token registry and the part of the auth service that drives it. */
module TokenServices {
  import opened Common
  import opened TokenProtocol

  // The two families of cache keys the registry uses; a read at or after its expiry finds nothing.
  class TokenRegistryService {
    var keys: map<(User, Token), int>
    var lists: map<User, TokenList>

    ghost function State(): Registry
      reads this
    {
      Registry(keys, lists)
    }

    constructor ()
      ensures State() == Registry(map[], map[])
    {
      keys, lists := map[], map[];
    }

    method GetList(u: User, now: int) returns (tokens: seq<Token>)
      ensures tokens == LiveList(State(), u, now)
    {
      if u in lists && now < lists[u].expiresAt {
        return lists[u].tokens;
      }
      return [];
    }

    method Store(u: User, t: Token, now: int)
      modifies this
      ensures State() == StoreToken(old(State()), u, t, now)
    {
      keys := keys[(u, t) := now + TTL];
      var tokens := GetList(u, now);
      if t !in tokens {
        tokens := tokens + [t];
        lists := lists[u := TokenList(tokens, now + TTL)];
      }
    }

    method TokenExists(u: User, t: Token, now: int) returns (found: bool)
      ensures found == Exists(State(), u, t, now)
    {
      found := (u, t) in keys && now < keys[(u, t)];
    }

    method InvalidateToken(u: User, t: Token, now: int)
      modifies this
      ensures State() == Invalidate(old(State()), u, t, now)
    {
      keys := keys - {(u, t)};
      var tokens := GetList(u, now);
      var filtered := Without(tokens, t);
      if |filtered| > 0 {
        lists := lists[u := TokenList(filtered, now + TTL)];
      } else {
        lists := lists - {u};
      }
    }

    method InvalidateAllForUser(u: User, now: int)
      modifies this
      ensures State() == InvalidateAll(old(State()), u, now)
    {
      var tokens := GetList(u, now);
      for i := 0 to |tokens|
        invariant lists == old(lists)
        invariant keys == old(keys) - (set t | t in tokens[..i] :: (u, t))
      {
        assert tokens[..i + 1] == tokens[..i] + [tokens[i]];
        assert (set t | t in tokens[..i + 1] :: (u, t)) == (set t | t in tokens[..i] :: (u, t)) + {(u, tokens[i])};
        keys := keys - {(u, tokens[i])};
      }
      assert tokens[..|tokens|] == tokens;
      lists := lists - {u};
    }
  }

  datatype Refused = ReuseDetected

  class AuthService {
    const registry: TokenRegistryService

    constructor (registry: TokenRegistryService)
      ensures this.registry == registry
    {
      this.registry := registry;
    }

    // minted is the random string the call generates.
    method GetTokens(u: User, minted: Token, now: int) returns (refreshToken: Token)
      modifies registry
      ensures refreshToken == minted
      ensures registry.State() == StoreToken(old(registry.State()), u, minted, now)
      ensures Exists(registry.State(), u, minted, now)
    {
      registry.Store(u, minted, now);
      return minted;
    }

    method RevokeAllUserTokens(u: User, now: int)
      modifies registry
      ensures registry.State() == InvalidateAll(old(registry.State()), u, now)
    {
      registry.InvalidateAllForUser(u, now);
    }

    method Refresh(u: User, presented: Token, minted: Token, now: int) returns (r: Result<Token, Refused>)
      modifies registry
      ensures registry.State() == RefreshTokens(old(registry.State()), u, presented, minted, now)
      ensures r.Ok? <==> Exists(old(registry.State()), u, presented, now)
      ensures r.Ok? ==> r.value == minted
    {
      var found := registry.TokenExists(u, presented, now);
      if !found {
        RevokeAllUserTokens(u, now);
        return Err(ReuseDetected);
      }
      registry.InvalidateToken(u, presented, now);
      var token := GetTokens(u, minted, now);
      return Ok(token);
    }
  }
}
