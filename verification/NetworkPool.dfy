/** The subnets the store hands out, as blocks of addresses. */
module NetworkPool {
  import Cidr
  import ProjectStore
  import ProjectStoreSafety
  import Strings

  ghost predicate PoolShape(s: string) {
    exists b: nat, c: nat :: 100 <= b < 256 && 100 <= c < 256 && s == Cidr.PoolText(b, c)
  }

  lemma TextIs(b: nat, c: nat)
    requires 100 <= b < 256 && 100 <= c < 256
    ensures Cidr.PoolText(b, c) == "10." + Cidr.ThreeDigits(b) + "." + Cidr.ThreeDigits(c) + ".0/24"
  {
    var x, y := Cidr.ThreeDigits(b), Cidr.ThreeDigits(c);
    var address := Strings.Join(["10", x, y, "0"], ".");
    assert ["10", x, y, "0"][1..] == [x, y, "0"] && [x, y, "0"][1..] == [y, "0"] && [y, "0"][1..] == ["0"];
    assert Strings.Join([y, "0"], ".") == y + "." + Strings.Join(["0"], ".");
    assert Strings.Join([x, y, "0"], ".") == x + "." + Strings.Join([y, "0"], ".");
    assert address == "10" + "." + (x + "." + (y + "." + "0"));
    assert [address, "24"][1..] == ["24"];
    assert Strings.Join([address, "24"], "/") == address + "/" + Strings.Join(["24"], "/");
  }

  lemma OfTheShape(s: string, b: nat, c: nat)
    requires 100 <= b < 256 && 100 <= c < 256
    requires s == "10." + Cidr.ThreeDigits(b) + "." + Cidr.ThreeDigits(c) + ".0/24"
    ensures PoolShape(s)
  {
    TextIs(b, c);
  }

  lemma PoolFirst(s: string)
    requires s == "10.252.254.0/24" || s == "10.252.255.0/24" || s == "10.252.253.0/24"
    ensures PoolShape(s)
  {
    if s == "10.252.254.0/24" {
      OfTheShape(s, 252, 254);
    } else if s == "10.252.255.0/24" {
      OfTheShape(s, 252, 255);
    } else {
      OfTheShape(s, 252, 253);
    }
  }

  lemma PoolSecond(s: string)
    requires s == "10.252.252.0/24" || s == "10.251.254.0/24" || s == "10.251.255.0/24"
    ensures PoolShape(s)
  {
    if s == "10.252.252.0/24" {
      OfTheShape(s, 252, 252);
    } else if s == "10.251.254.0/24" {
      OfTheShape(s, 251, 254);
    } else {
      OfTheShape(s, 251, 255);
    }
  }

  lemma PoolThird(s: string)
    requires s == "10.250.254.0/24" || s == "10.250.255.0/24" || s == "10.250.253.0/24"
    ensures PoolShape(s)
  {
    if s == "10.250.254.0/24" {
      OfTheShape(s, 250, 254);
    } else if s == "10.250.255.0/24" {
      OfTheShape(s, 250, 255);
    } else {
      OfTheShape(s, 250, 253);
    }
  }

  lemma PoolFourth(s: string)
    requires s == "10.250.252.0/24" || s == "10.250.251.0/24" || s == "10.250.250.0/24"
    ensures PoolShape(s)
  {
    if s == "10.250.252.0/24" {
      OfTheShape(s, 250, 252);
    } else if s == "10.250.251.0/24" {
      OfTheShape(s, 250, 251);
    } else {
      OfTheShape(s, 250, 250);
    }
  }

  lemma PoolFifth(s: string)
    requires s == "10.250.249.0/24" || s == "10.250.248.0/24"
    ensures PoolShape(s)
  {
    if s == "10.250.249.0/24" {
      OfTheShape(s, 250, 249);
    } else {
      OfTheShape(s, 250, 248);
    }
  }

  /** Every subnet of the pool is a /24 inside 10.0.0.0/8. */
  lemma PoolHasTheShape(s: string)
    requires s in ProjectStore.PROJECT_NETWORK_POOL
    ensures PoolShape(s)
  {
    var pool := ProjectStore.PROJECT_NETWORK_POOL;
    var n :| 0 <= n < |pool| && pool[n] == s;
    if n < 3 {
      PoolFirst(s);
    } else if n < 6 {
      PoolSecond(s);
    } else if n < 9 {
      PoolThird(s);
    } else if n < 12 {
      PoolFourth(s);
    } else {
      PoolFifth(s);
    }
  }

  /** In every reachable state of the store, the networks of two projects share no address. */
  lemma ProjectNetworksDisjoint(ss: seq<ProjectStore.System>, steps: seq<ProjectStore.Step>, i: nat, d: string,
                                e: string, address: nat)
    requires ProjectStoreSafety.Run(ss, steps) && i < |ss| && d != e
    requires d in ss[i].files.projects && ss[i].files.projects[d].subnet.Some?
    requires e in ss[i].files.projects && ss[i].files.projects[e].subnet.Some?
    ensures var a := Cidr.Parse(ss[i].files.projects[d].subnet.value);
            var b := Cidr.Parse(ss[i].files.projects[e].subnet.value);
            a.Some? && b.Some? && !(Cidr.Contains(a.value, address) && Cidr.Contains(b.value, address))
  {
    var projects := ss[i].files.projects;
    ProjectStoreSafety.ProjectsAlwaysStrict(ss, steps, i);
    assert ProjectStore.ValidRecord(d, projects[d]) && ProjectStore.ValidRecord(e, projects[e]);
    assert !ProjectStore.Clash(projects[d], projects[e]);
    SubnetsDisjoint(projects[d].subnet.value, projects[e].subnet.value, address);
  }

  lemma SubnetsDisjoint(s: string, t: string, address: nat)
    requires s in ProjectStore.PROJECT_NETWORK_POOL && t in ProjectStore.PROJECT_NETWORK_POOL && s != t
    ensures Cidr.Parse(s).Some? && Cidr.Parse(t).Some?
    ensures !(Cidr.Contains(Cidr.Parse(s).value, address) && Cidr.Contains(Cidr.Parse(t).value, address))
  {
    PoolHasTheShape(s);
    PoolHasTheShape(t);
    ShapesDisjoint(s, t, address);
  }

  lemma ShapesDisjoint(s: string, t: string, address: nat)
    requires PoolShape(s) && PoolShape(t) && s != t
    ensures Cidr.Parse(s).Some? && Cidr.Parse(t).Some?
    ensures !(Cidr.Contains(Cidr.Parse(s).value, address) && Cidr.Contains(Cidr.Parse(t).value, address))
  {
    var b: nat, c: nat :| 100 <= b < 256 && 100 <= c < 256 && s == Cidr.PoolText(b, c);
    var b': nat, c': nat :| 100 <= b' < 256 && 100 <= c' < 256 && t == Cidr.PoolText(b', c');
    Cidr.PoolTextsDisjoint(b, c, b', c', address);
  }
}
