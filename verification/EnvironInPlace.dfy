/**
 env.c in its own form: the pointer array searched with a moving index, extended by reallocation,
 and filtered in place by shifting.  A cell is a string or the null pointer that ends the array.
 */
module EnvironInPlace {
  import opened Types
  import opened Environ

  ghost predicate Ended(cells: seq<Option<string>>) {
    None in cells
  }

  /** The strings before the null pointer. */
  ghost function Entries(cells: seq<Option<string>>): (es: seq<string>)
    requires Ended(cells)
    ensures |es| < |cells| && cells[|es|] == None
    ensures forall i :: 0 <= i < |es| ==> cells[i] == Some(es[i])
  {
    if cells[0] == None then []
    else
      assert None in cells[1..];
      [cells[0].value] + Entries(cells[1..])
  }

  /** The array holds exactly the strings `es`, and then the null pointer. */
  ghost predicate Holds(cells: array<Option<string>>, es: seq<string>)
    reads cells
  {
    && |es| < cells.Length && cells[|es|] == None
    && forall i :: 0 <= i < |es| ==> cells[i] == Some(es[i])
  }

  lemma HoldsEntries(cells: array<Option<string>>, es: seq<string>)
    requires Holds(cells, es)
    ensures Ended(cells[..]) && Entries(cells[..]) == es
  {
    assert cells[..][|es|] == None;
    var n := |Entries(cells[..])|;
    assert n <= |es| ==> n == |es|;
    assert |es| <= n ==> n == |es|;
  }

  lemma EntriesHold(cells: array<Option<string>>)
    requires Ended(cells[..])
    ensures Holds(cells, Entries(cells[..]))
  {
  }

  /** Every entry is a non-empty byte string. */
  ghost predicate WellFormed(es: seq<string>) {
    forall i :: 0 <= i < |es| ==> es[i] != "" && ByteString(es[i])
  }

  class Environment {
    var environ: array?<Option<string>>
    var lastEnviron: array?<Option<string>>
    ghost var freed: set<array?<Option<string>>>    // blocks given back by realloc

    /** Neither pointer is to a block that was given back. */
    ghost predicate Sound()
      reads this
    {
      environ !in freed && lastEnviron !in freed && null !in freed
    }

    ghost predicate Valid()
      reads this, environ, lastEnviron
    {
      && (environ != null ==> Ended(environ[..]) && WellFormed(Entries(environ[..])))
    }

    ghost function Contents(): seq<string>
      requires Valid()
      reads this, environ, lastEnviron
    {
      if environ == null then [] else Entries(environ[..])
    }

    /** The environment the program starts with; this module has allocated none of it. */
    constructor (cells: array?<Option<string>>)
      requires cells != null ==> Ended(cells[..]) && WellFormed(Entries(cells[..]))
      ensures Valid() && Sound() && environ == cells && lastEnviron == null
    {
      environ, lastEnviron, freed := cells, null, {};
    }

    /** getenv */
    method GetEnv(name: string) returns (value: Option<string>)
      requires Valid() && ByteString(name)
      ensures value == Lookup(Contents(), name)
    {
      if environ == null || name == "" { return None; }
      ghost var es := Contents();
      var ep := 0;
      while environ[ep] != None
        invariant 0 <= ep <= |es|
        invariant forall i :: 0 <= i < ep ==> !Matches(es[i], name)
        decreases |es| - ep
      {
        var e := environ[ep].value;
        FastTestExact(e, name);
        if FastTest(e, name) {
          FirstMatchIs(es, name, ep);
          return Some(e[|name| + 1..]);
        }
        ep := ep + 1;
      }
      FirstMatchIs(es, name, ep);
      value := None;
    }

    /** Lines 137-147: the index of the first entry for `name`, or of the null pointer. */
    method Find(name: string) returns (size: nat)
      requires Valid()
      ensures size == FirstMatch(Contents(), name)
    {
      size := 0;
      ghost var es := Contents();
      if environ != null {
        while environ[size] != None
          invariant 0 <= size <= |es|
          invariant forall i :: 0 <= i < size ==> !Matches(es[i], name)
          decreases |es| - size
        {
          PlainTestExact(environ[size].value, name);
          if PlainTest(environ[size].value, name) { break; }
          size := size + 1;
        }
      }
      FirstMatchIs(es, name, size);
    }

    /** realloc(last_environ, n) when it succeeds: a fresh array that begins as the old one did, which is given back. */
    method Realloc(n: nat) returns (cells: array<Option<string>>)
      requires lastEnviron !in freed
      modifies this`freed
      ensures fresh(cells) && cells.Length == n
      ensures lastEnviron != null ==>
                forall i :: 0 <= i < n && i < lastEnviron.Length ==> cells[i] == lastEnviron[i]
      ensures freed == old(freed) + if lastEnviron == null then {} else {lastEnviron}
    {
      cells := new Option<string>[n](_ => None);
      if lastEnviron != null {
        var i := 0;
        while i < n && i < lastEnviron.Length
          invariant 0 <= i && (i <= n || i == 0) && freed == old(freed)
          invariant forall k :: 0 <= k < i && k < n && k < lastEnviron.Length ==> cells[k] == lastEnviron[k]
        {
          cells[i] := lastEnviron[i];
          i := i + 1;
        }
        freed := freed + {lastEnviron};
      }
    }

    /**
     setenv, through __add_to_environ with `combined` null.  `room` tells whether realloc succeeds and
     `text` whether malloc does.  The two pointers stay sound if and only if malloc does not fail after
     realloc has given back a block of this module's own.
     */
    method SetEnv(name: string, value: string, replace: bool, room: bool, text: bool) returns (ret: int)
      requires Valid() && Sound() && ByteString(name) && ByteString(value)
      modifies this, environ
      ensures Valid()
      ensures ret == -1 || ret == 0
      ensures ret == -1 && Sound() ==> Contents() == old(Contents())
      ensures ret == 0 ==> Contents() == SetIn(old(Contents()), name, value, replace)
      ensures var missing := FirstMatch(old(Contents()), name) == |old(Contents())|;
              && (ret == -1 <==> if missing then !room || !text else replace && !text)
              && (Sound() <==> !(missing && room && !text && old(lastEnviron) != null))
    {
      hide Entries, Ended, FirstMatch, Entry, ByteString, Matches;
      ghost var es, e := Contents(), Entry(name, value);
      EntryWellFormed(name, value);
      if environ != null { EntriesHold(environ); }
      var size := Find(name);
      if environ == null || environ[size] == None {
        if !room { return -1; }
        var cells := Realloc(size + 2);
        if !text { return -1; }
        cells[size] := Some(Entry(name, value));
        if environ != lastEnviron {
          CopyCells(environ, cells, size);
        }
        cells[size + 1] := None;
        HoldsEntries(cells, es + [e]);
        environ, lastEnviron := cells, cells;
      } else if replace {
        if !text { return -1; }
        environ[size] := Some(Entry(name, value));
        HoldsEntries(environ, es[size := e]);
      }
      ret := 0;
    }

    /** memcpy of `n` cells; nothing is copied from a null environment. */
    static method CopyCells(src: array?<Option<string>>, dst: array<Option<string>>, n: nat)
      requires n <= dst.Length && (src == null ==> n == 0) && (src != null ==> n <= src.Length && src != dst)
      modifies dst
      ensures src != null ==> forall i :: 0 <= i < n ==> dst[i] == src[i]
      ensures forall i :: n <= i < dst.Length ==> dst[i] == old(dst[i])
    {
      if src != null {
        for i := 0 to n
          invariant forall k :: 0 <= k < i ==> dst[k] == src[k]
          invariant forall k :: i <= k < dst.Length ==> dst[k] == old(dst[k])
        {
          dst[i] := src[i];
        }
      }
    }

    /** Lines 302-304: move every later cell, the null pointer included, one place back. */
    static method ShiftBack(cells: array<Option<string>>, at: nat, ghost es: seq<string>)
      requires Holds(cells, es) && at < |es|
      modifies cells
      ensures Holds(cells, es[..at] + es[at + 1..])
    {
      var dp := at;
      cells[dp] := cells[dp + 1];
      while cells[dp] != None
        invariant at <= dp < |es|
        invariant forall i :: 0 <= i < at ==> cells[i] == Some(es[i])
        invariant forall i :: at <= i <= dp ==> cells[i] == (if i + 1 < |es| then Some(es[i + 1]) else None)
        invariant forall i :: dp < i < |es| ==> cells[i] == Some(es[i])
        invariant cells[|es|] == None
        decreases |es| - dp
      {
        dp := dp + 1;
        cells[dp] := cells[dp + 1];
      }
    }

    /** Lines 295-308: drop every entry for `name`, looking again at a cell that was shifted into. */
    static method FilterCells(cells: array<Option<string>>, name: string, ghost es: seq<string>)
      requires Holds(cells, es)
      modifies cells
      ensures Holds(cells, UnsetIn(es, name))
    {
      hide UnsetIn, Matches, PlainTest, Filtering;
      ghost var k, now := 0, es;
      var ep := 0;
      UnsetNothing(es, name);
      while cells[ep] != None
        invariant k <= |es| && Holds(cells, now)
        invariant ep == |UnsetIn(es[..k], name)|
        invariant now == Filtering(es, k, name)
        decreases |es| - k
      {
        PlainTestExact(cells[ep].value, name);
        NextCell(es, k, name);
        if PlainTest(cells[ep].value, name) {
          ShiftBack(cells, ep, now);
          now := now[..ep] + now[ep + 1..];
        } else {
          ep := ep + 1;
        }
        k := k + 1;
      }
      FilterEnds(es, k, name);
    }

    /** unsetenv; with a proper name a null environment is dereferenced, and there is no return value. */
    method UnsetEnv(name: string) returns (ret: Option<int>)
      requires Valid()
      modifies environ
      ensures Valid()
      ensures ret == Some(-1) <==> name == "" || '=' in name
      ensures ret == None <==> name != "" && '=' !in name && environ == null
      ensures ret == None || ret == Some(-1) || ret == Some(0)
      ensures ret != Some(0) ==> Contents() == old(Contents())
      ensures ret == Some(0) ==> Contents() == UnsetIn(old(Contents()), name)
    {
      hide Entries, Ended, UnsetIn;
      if name == "" || '=' in name { return Some(-1); }
      if environ == null { return None; }
      ghost var es := Contents();
      EntriesHold(environ);
      FilterCells(environ, name, es);
      HoldsEntries(environ, UnsetIn(es, name));
      UnsetKeepsShape(es, name);
      ret := Some(0);
    }
  }

  lemma UnsetKeepsShape(es: seq<string>, name: string)
    requires WellFormed(es)
    ensures WellFormed(UnsetIn(es, name))
  {
    hide ByteString;
    UnsetRemoves(es, name);
    var us := UnsetIn(es, name);
    forall i | 0 <= i < |us| ensures us[i] != "" && ByteString(us[i]) {
      assert us[i] in us;
      assert us[i] in es;
    }
  }

  lemma EntryWellFormed(name: string, value: string)
    requires ByteString(name) && ByteString(value)
    ensures Entry(name, value) != "" && ByteString(Entry(name, value))
  {
  }

  /** The first `k` entries have been filtered. */
  ghost function Filtering(es: seq<string>, k: nat, name: string): (r: seq<string>)
    requires k <= |es|
    ensures |UnsetIn(es[..k], name)| <= |r|
  {
    UnsetIn(es[..k], name) + es[k..]
  }

  lemma UnsetNothing(es: seq<string>, name: string)
    ensures UnsetIn(es[..0], name) == [] && es == Filtering(es, 0, name)
  {
  }

  lemma FilterEnds(es: seq<string>, k: nat, name: string)
    requires k <= |es| && |UnsetIn(es[..k], name)| >= |Filtering(es, k, name)|
    ensures Filtering(es, k, name) == UnsetIn(es, name)
  {
    assert k == |es| && es[..k] == es;
  }

  /** One step of the filter: entry `k` is kept or dropped. */
  lemma NextCell(es: seq<string>, k: nat, name: string)
    requires k <= |es| && |UnsetIn(es[..k], name)| < |Filtering(es, k, name)|
    ensures k < |es|
    ensures var done, now := |UnsetIn(es[..k], name)|, Filtering(es, k, name);
            && now[done] == es[k]
            && if Matches(es[k], name) then
                 && |UnsetIn(es[..k + 1], name)| == done
                 && Filtering(es, k + 1, name) == now[..done] + now[done + 1..]
               else
                 && |UnsetIn(es[..k + 1], name)| == done + 1
                 && Filtering(es, k + 1, name) == now
  {
    var done, now := UnsetIn(es[..k], name), Filtering(es, k, name);
    assert k < |es|;
    assert es[..k + 1] == es[..k] + [es[k]];
    UnsetConcat(es[..k], [es[k]], name);
    assert es[k..] == [es[k]] + es[k + 1..];
    assert UnsetIn([es[k]], name) == if Matches(es[k], name) then [] else [es[k]];
    hide UnsetIn;
    assert now == done + ([es[k]] + es[k + 1..]);
    assert now[..|done|] == done && now[|done| + 1..] == es[k + 1..];
    assert done + [es[k]] + es[k + 1..] == now;
    assert done + [] == done;
  }
}
