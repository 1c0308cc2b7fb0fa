/** What session calls come to by themselves, over single-step calls of the connection manager; the ends
    are those of the calls of the session manager one at a time. */
module SessionProgress {
  import opened Text
  import opened Session
  import S = SessionInterleaving

  ghost function Next(s: S.State, t: nat, yes: bool): S.State {
    S.Apply(s, S.Advance(t, yes))
  }

  lemma UpdatedTwice<K, V>(m: map<K, V>, k: K, v: V, w: V)
    ensures m[k := v][k := w] == m[k := w]
  {
  }

  /** A Connect that succeeds makes its host current, and one that fails changes nothing. */
  lemma ConnectAlone(s: S.State, t: nat, host: string)
    requires t in s.threads && s.threads[t] == S.Open(host) && s.holder.None?
    ensures Next(Next(s, t, true), t, true) ==
            s.(activeHost := host, live := s.live + {host}, threads := s.threads[t := S.Returned])
    ensures Next(s, t, false) == s.(threads := s.threads[t := S.Returned])
  {
    UpdatedTwice(s.threads, t, S.Name(host), S.Returned);
  }

  /** With the lock free, the locked section replaces the host it was entered for by the least live one,
      if it is still the current one. */
  lemma SectionAlone(s: S.State, t: nat, host: string, asked: bool) returns (end: S.State)
    requires t in s.threads && s.threads[t] == S.Enter(host, asked) && s.holder.None?
    ensures var two := Next(Next(s, t, true), t, true);
            end == if s.activeHost == host then Next(Next(two, t, true), t, true) else two
    ensures end == s.(activeHost := end.activeHost, threads := s.threads[t := S.End(asked, end.activeHost)])
    ensures if s.activeHost == host then Picked(end.activeHost, s.live) else end.activeHost == s.activeHost
  {
    var s1 := Next(s, t, true);
    assert s1 == s.(holder := Some(t), threads := s.threads[t := S.Compare(host, asked)]);
    var s2 := Next(s1, t, true);
    if s.activeHost == host {
      UpdatedTwice(s.threads, t, S.Compare(host, asked), S.Pick(asked));
      assert s2 == s.(holder := Some(t), threads := s.threads[t := S.Pick(asked)]);
      var pick := PickFrom(s.live);
      var s3 := Next(s2, t, true);
      UpdatedTwice(s.threads, t, S.Pick(asked), S.Assign(pick, asked));
      assert s3 == s.(holder := Some(t), threads := s.threads[t := S.Assign(pick, asked)]);
      end := Next(s3, t, true);
      UpdatedTwice(s.threads, t, S.Assign(pick, asked), S.End(asked, pick));
    } else {
      UpdatedTwice(s.threads, t, S.Compare(host, asked), S.End(asked, s.activeHost));
      end := s2;
    }
  }

  /** A Disconnect takes its host off the live ones, and the least of the others takes its place if it
      was the current one. */
  lemma DisconnectAlone(s: S.State, t: nat, host: string) returns (end: S.State)
    requires t in s.threads && s.threads[t] == S.Close(host) && s.holder.None?
    ensures var first := Next(s, t, true);
            var two := Next(Next(first, t, true), t, true);
            end == if s.activeHost == host then Next(Next(two, t, true), t, true) else two
    ensures end.live == s.live - {host} && end.holder.None? && end.threads == s.threads[t := S.Returned]
    ensures if s.activeHost == host then Picked(end.activeHost, end.live) else end.activeHost == s.activeHost
  {
    var first := Next(s, t, true);
    assert first == s.(live := s.live - {host}, threads := s.threads[t := S.Enter(host, false)]);
    end := SectionAlone(first, t, host, false);
    UpdatedTwice(s.threads, t, S.Enter(host, false), S.Returned);
  }

  /** A GetActiveHost answers the current host while it is live, and otherwise what replaces it. */
  lemma AskAlone(s: S.State, t: nat) returns (end: S.State)
    requires t in s.threads && s.threads[t] == S.Read && s.holder.None? && S.Inv(s)
    requires s.activeHost == "" ==> s.live == {}
    ensures end.live == s.live && end.holder.None? && end.threads == s.threads[t := S.Answered(end.activeHost)]
    ensures RefreshedTo(s.activeHost, s.live, end.activeHost)
    ensures var read := Next(s, t, true);
            var checked := Next(read, t, true);
            || end in {read, checked}
            || end == Next(Next(Next(Next(checked, t, true), t, true), t, true), t, true)
  {
    var read := Next(s, t, true);
    if s.activeHost == "" {
      end := read;
    } else {
      var host := s.activeHost;
      assert read == s.(threads := s.threads[t := S.Check(host)]);
      var checked := Next(read, t, true);
      if host in s.live {
        UpdatedTwice(s.threads, t, S.Check(host), S.Answered(host));
        end := checked;
      } else {
        UpdatedTwice(s.threads, t, S.Check(host), S.Enter(host, true));
        assert checked == s.(threads := s.threads[t := S.Enter(host, true)]);
        end := SectionAlone(checked, t, host, true);
        UpdatedTwice(s.threads, t, S.Enter(host, true), S.Answered(end.activeHost));
      }
    }
  }
}
