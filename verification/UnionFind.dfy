/** Union-find over a parent map, with path compression and no ranks. */
module UnionFind {
  import opened Base

  type Links = map<Path, Path>

  /** `x` hangs from its root: the measure grows along the parent links, which stay under one root. */
  ghost predicate Hangs(parent: Links, root: Links, height: map<Path, nat>, x: Path)
    requires root.Keys == parent.Keys == height.Keys && x in parent
  {
    && parent[x] in parent && root[x] in parent
    && root[parent[x]] == root[x]
    && (parent[x] == x <==> root[x] == x)
    && (parent[x] != x ==> height[x] < height[parent[x]])
    && height[x] <= height[root[x]]
    && parent[root[x]] == root[x]
  }

  ghost predicate Sound(parent: Links, root: Links, height: map<Path, nat>) {
    && root.Keys == parent.Keys == height.Keys
    && forall x {:trigger Hangs(parent, root, height, x)} :: x in parent ==> Hangs(parent, root, height, x)
  }

  lemma CompressStaysSound(parent: Links, root: Links, height: map<Path, nat>, x: Path, r: Path)
    requires Sound(parent, root, height) && x in parent && root[x] == r && x != r
    ensures Sound(parent[x := r], root, height)
  {
    assert Hangs(parent, root, height, x) && Hangs(parent, root, height, parent[x]);
    assert Hangs(parent, root, height, r);
    forall y | y in parent ensures Hangs(parent[x := r], root, height, y) {
      assert Hangs(parent, root, height, y);
    }
  }

  lemma AddStaysSound(parent: Links, root: Links, height: map<Path, nat>, x: Path)
    requires Sound(parent, root, height) && x !in parent
    ensures Sound(parent[x := x], root[x := x], height[x := 0])
  {
    var parent', root', height' := parent[x := x], root[x := x], height[x := 0];
    forall y | y in parent' ensures Hangs(parent', root', height', y) {
      if y != x {
        assert Hangs(parent, root, height, y);
      }
    }
  }

  ghost function Relinked(root: Links, ra: Path, rb: Path): Links {
    map x | x in root :: if root[x] == ra then rb else root[x]
  }

  ghost function Raised(root: Links, height: map<Path, nat>, rb: Path, extra: nat): map<Path, nat>
    requires root.Keys == height.Keys
  {
    map x | x in height :: if root[x] == rb then height[x] + extra + 1 else height[x]
  }

  lemma LinkStaysSound(parent: Links, root: Links, height: map<Path, nat>, ra: Path, rb: Path)
    requires Sound(parent, root, height)
    requires ra in parent && rb in parent && root[ra] == ra && root[rb] == rb && ra != rb
    ensures Sound(parent[ra := rb], Relinked(root, ra, rb), Raised(root, height, rb, height[ra]))
  {
    var parent', root', height' := parent[ra := rb], Relinked(root, ra, rb), Raised(root, height, rb, height[ra]);
    assert root'.Keys == parent'.Keys == height'.Keys;
    assert Hangs(parent, root, height, ra) && Hangs(parent, root, height, rb);
    forall y | y in parent' ensures Hangs(parent', root', height', y) {
      assert Hangs(parent, root, height, y);
      assert Hangs(parent, root, height, parent[y]);
    }
  }

  class Forest {
    var parent: Links
    // the root of every document, and a measure that grows towards it
    ghost var root: Links
    ghost var height: map<Path, nat>

    ghost predicate Valid()
      reads this
    {
      Sound(parent, root, height)
    }

    constructor ()
      ensures Valid() && parent == map[] && root == map[]
    {
      parent, root, height := map[], map[], map[];
    }

    /** The root of `x`, adding `x` as its own root when it is new. Compression changes no root. */
    method Find(x: Path) returns (r: Path)
      requires Valid()
      modifies this
      ensures Valid()
      ensures root == WithSingleton(old(root), x)
      ensures r == root[x]
    {
      if x !in parent {
        AddStaysSound(parent, root, height, x);
        parent, root, height := parent[x := x], root[x := x], height[x := 0];
        return x;
      }
      assert Hangs(parent, root, height, x);
      r := x;
      while parent[r] != r
        invariant r in parent && root[r] == root[x] && height[r] <= height[root[x]]
        decreases height[root[x]] - height[r]
      {
        assert Hangs(parent, root, height, r) && Hangs(parent, root, height, parent[r]);
        r := parent[r];
      }
      assert Hangs(parent, root, height, r);
      var cur := x;
      while parent[cur] != r
        invariant Valid() && root == old(root) && height == old(height)
        invariant cur in parent && root[cur] == r && parent[r] == r && height[cur] <= height[r]
        decreases height[r] - height[cur]
      {
        assert Hangs(parent, root, height, cur) && Hangs(parent, root, height, parent[cur]);
        CompressStaysSound(parent, root, height, cur, r);
        var next := parent[cur];
        parent := parent[cur := r];
        cur := next;
      }
    }

    /** Puts `a` and `b` under one root; every document that shared a root with `a` follows. */
    method Union(a: Path, b: Path)
      requires Valid()
      modifies this
      ensures Valid()
      ensures root == Merged(old(root), a, b)
    {
      var ra := Find(a);
      var rb := Find(b);
      assert Hangs(parent, root, height, a) && Hangs(parent, root, height, b);
      assert Hangs(parent, root, height, ra) && Hangs(parent, root, height, rb);
      if ra != rb {
        LinkStaysSound(parent, root, height, ra, rb);
        height := Raised(root, height, rb, height[ra]);
        root := Relinked(root, ra, rb);
        parent := parent[ra := rb];
      }
    }
  }

  ghost function WithSingleton(root: Links, x: Path): Links {
    if x in root then root else root[x := x]
  }

  /** The roots after `a` and `b` are added if new and joined. */
  ghost function Merged(root: Links, a: Path, b: Path): Links {
    var both := WithSingleton(WithSingleton(root, a), b);
    Relinked(both, both[a], both[b])
  }
}
