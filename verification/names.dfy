/**
  The class-name registry (`ClassNames`) as this layer sees it: an intern
  table from class-name strings to class identities, and the partial map from
  identities back to parsed names. A name is a path of package segments plus
  the simple name (`java/lang/String` has path `["java", "lang", "String"]`);
  an array class name (`[I`, `[Ljava/lang/String;`) is kept whole as a single
  segment and flagged as an array.
 */
module Names {
  import opened Wrappers
  import opened Id

  datatype Name = Name(path: seq<string>, isArray: bool)

  /** The registry's refusal of an identity it never issued. */
  datatype BadIdError = BadIdError(id: ClassId)

  /** Splits `s` at every `sep`, keeping empty segments; there is always at least one segment. */
  function Split(s: string, sep: char): (parts: seq<string>)
    ensures |parts| >= 1
  {
    if s == [] then [""]
    else
      var rest := Split(s[1..], sep);
      if s[0] == sep then [""] + rest
      else [[s[0]] + rest[0]] + rest[1..]
  }

  /** Concatenates the segments with `sep` between consecutive ones. */
  function Join(parts: seq<string>, sep: char): string {
    if |parts| == 0 then ""
    else if |parts| == 1 then parts[0]
    else parts[0] + [sep] + Join(parts[1..], sep)
  }

  /** Joining the segments of a split gives back the original string. */
  lemma {:induction false} JoinSplit(s: string, sep: char)
    ensures Join(Split(s, sep), sep) == s
  {
    if s != [] {
      var rest := Split(s[1..], sep);
      JoinSplit(s[1..], sep);
      if s[0] == sep {
        assert Split(s, sep) == [""] + rest;
        assert ([""] + rest)[1..] == rest;
      } else {
        var parts := [[s[0]] + rest[0]] + rest[1..];
        assert Split(s, sep) == parts;
        if |rest| > 1 {
          assert parts[1..] == rest[1..];
          assert Join(rest, sep) == rest[0] + [sep] + Join(rest[1..], sep);
        }
      }
    }
  }

  /** A segment free of `sep` splits to itself, and ends the first segment of what follows it. */
  lemma {:induction false} SplitSegment(x: string, t: string, sep: char)
    requires sep !in x
    ensures Split(x, sep) == [x]
    ensures Split(x + [sep] + t, sep) == [x] + Split(t, sep)
  {
    if x != [] {
      SplitSegment(x[1..], t, sep);
      assert (x + [sep] + t)[1..] == x[1..] + [sep] + t;
      assert [x[0]] + x[1..] == x;
    } else {
      assert x + [sep] + t == [sep] + t;
      assert ([sep] + t)[1..] == t;
    }
  }

  /** Splitting a join of `sep`-free segments gives back the segments. */
  lemma {:induction false} SplitJoin(parts: seq<string>, sep: char)
    requires |parts| >= 1
    requires forall i :: 0 <= i < |parts| ==> sep !in parts[i]
    ensures Split(Join(parts, sep), sep) == parts
  {
    if |parts| == 1 {
      SplitSegment(parts[0], "", sep);
    } else {
      SplitJoin(parts[1..], sep);
      SplitSegment(parts[0], Join(parts[1..], sep), sep);
      assert [parts[0]] + parts[1..] == parts;
    }
  }

  /** How the registry parses a class-name string into a `Name`. */
  function NameOf(s: string): (n: Name)
    ensures n.isArray == IsArrayClass(s)
  {
    if IsArrayClass(s) then Name([s], true) else Name(Split(s, '/'), false)
  }

  /** An array name has exactly one segment, itself an array class name. */
  predicate WellFormedName(n: Name) {
    n.isArray ==> |n.path| == 1 && IsArrayClass(n.path[0])
  }

  predicate WellFormedTable(names: map<ClassId, Name>) {
    forall id :: id in names ==> WellFormedName(names[id])
  }

  /** The class-name string a well-formed `Name` stands for. */
  function NameText(n: Name): string
    requires WellFormedName(n)
  {
    if n.isArray then n.path[0] else Join(n.path, '/')
  }

  /** Parsing a name string and printing it again is the identity. */
  lemma NameTextOfNameOf(s: string)
    ensures WellFormedName(NameOf(s)) && NameText(NameOf(s)) == s
  {
    if !IsArrayClass(s) {
      JoinSplit(s, '/');
    }
  }

  class ClassNames {
    /** The intern table: class-name string to identity. */
    var ids: map<string, ClassId>
    /** Identity back to its parsed name. */
    var names: map<ClassId, Name>
    /** The next raw identity value to hand out. */
    var next: nat

    /**
      Every interned string has a name parsed from it, every named identity is
      the interned identity of its own text, and every identity handed out is
      below `next`, which stays within 32 bits.
     */
    ghost predicate Valid()
      reads this
    {
      && (forall s :: s in ids ==> ids[s] in names && names[ids[s]] == NameOf(s))
      && (forall id :: id in names ==>
            WellFormedName(names[id]) && NameText(names[id]) in ids && ids[NameText(names[id])] == id)
      && (forall id :: id in names ==> id.raw as int < next)
      && next <= 0x1_0000_0000
    }

    constructor ()
      ensures Valid()
      ensures ids == map[] && names == map[] && next == 0
    {
      ids := map[];
      names := map[];
      next := 0;
    }

    /** Intern-or-fetch: the identity of `s`, issuing a fresh one the first time `s` is seen. */
    method GcidFromStr(s: string) returns (id: ClassId)
      requires Valid()
      requires s !in ids ==> next < 0x1_0000_0000
      modifies this
      ensures Valid()
      ensures s in ids && ids[s] == id && id in names && names[id] == NameOf(s)
      ensures old(s in ids) ==> id == old(ids[s]) && unchanged(this)
      ensures old(s !in ids) ==>
        && id !in old(names)
        && id.Get() as int == old(next)
        && ids == old(ids)[s := id]
        && names == old(names)[id := NameOf(s)]
        && next == old(next) + 1
    {
      if s in ids {
        id := ids[s];
      } else {
        id := ClassId.NewUnchecked(next as u32);
        NameTextOfNameOf(s);
        ids := ids[s := id];
        names := names[id := NameOf(s)];
        next := next + 1;
      }
    }

    /** The name of an identity, or the registry's refusal when it never issued it. */
    function NameFromGcid(id: ClassId): (r: Result<Name, BadIdError>)
      reads this
      ensures r.Ok? <==> id in names
      ensures r.Ok? ==> r.value == names[id]
      ensures r.Err? ==> r.error == BadIdError(id)
    {
      if id in names then Ok(names[id]) else Err(BadIdError(id))
    }
  }

  /** A valid registry never gives two different strings the same identity. */
  lemma InternInjective(r: ClassNames, s: string, t: string)
    requires r.Valid()
    requires s in r.ids && t in r.ids && r.ids[s] == r.ids[t]
    ensures s == t
  {
    NameTextOfNameOf(s);
    NameTextOfNameOf(t);
  }
}
