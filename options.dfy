/** The option registry of `datatable/options.py`: a tree of `DtConfig`
    groups, keyed by the dot-separated segments of an option's name, whose
    leaves are `DtOption`s.

    Each group's `_keyvals` is a Python dict; it is modelled as an association
    list in insertion order, because `get("")` merges the groups' dictionaries
    in that order. The type test `is_type` of the library is a parameter,
    `isType`. */
module DtOptions {
  import opened Results

  datatype DtOption<T, V> = DtOption(typ: T, value: V, default: V, doc: string)

  datatype Entry<T, V> = Opt(opt: DtOption<T, V>) | Group(cfg: DtConfig<T, V>)

  datatype Binding<T, V> = Binding(key: string, entry: Entry<T, V>)

  /** A group: its `_prefix` (empty, or ending in ".") and its `_keyvals`. */
  datatype DtConfig<T, V> = DtConfig(prefix: string, keyvals: seq<Binding<T, V>>)

  datatype OptionError =
    | InvalidName(key: string)
    | PrefixIsOption(fullkey: string, fullprekey: string)
    | AlreadyRegistered(fullkey: string)
    | BadDefault
    | UnknownOption(fullkey: string)
    | InvalidValue(fullkey: string)
    | CannotModifyGroup(fullkey: string)
    /** Python's AttributeError for a method the object does not have: a
        `DtOption` has no `__getattr__`, a plain value no attribute "". */
    | NoAttribute

  //---- Strings and dictionaries ----

  /** `s.find(c)`: the first position of c in s, or -1. */
  function FindChar(s: string, c: char): (r: int)
    ensures -1 <= r < |s|
    ensures r >= 0 ==> s[r] == c && c !in s[..r]
    ensures r == -1 <==> c !in s
  {
    if s == [] then -1
    else if s[0] == c then 0
    else
      var k := FindChar(s[1..], c);
      assert s[1..][..k + 1] == s[1..k + 2];
      if k == -1 then -1 else k + 1
  }

  /** The position of key k in a dictionary, or -1. */
  function IndexOf<T, V>(kv: seq<Binding<T, V>>, k: string): (r: int)
    ensures -1 <= r < |kv|
    ensures r >= 0 ==> kv[r].key == k
    ensures r == -1 <==> forall i :: 0 <= i < |kv| ==> kv[i].key != k
  {
    if kv == [] then -1
    else if kv[|kv| - 1].key == k then |kv| - 1
    else IndexOf(kv[..|kv| - 1], k)
  }

  /** `d.get(k)`. */
  function Lookup<T, V>(kv: seq<Binding<T, V>>, k: string): (r: Option<Entry<T, V>>)
    ensures r.Some? ==> Binding(k, r.value) in kv
    ensures r.None? ==> forall i :: 0 <= i < |kv| ==> kv[i].key != k
  {
    var i := IndexOf(kv, k);
    if i >= 0 then Some(kv[i].entry) else None
  }

  /** `d[k] = e`: overwrite in place when k is present, append otherwise. */
  function Store<T, V>(kv: seq<Binding<T, V>>, k: string, e: Entry<T, V>): (r: seq<Binding<T, V>>)
    ensures IndexOf(kv, k) >= 0 ==> r == kv[IndexOf(kv, k) := Binding(k, e)]
    ensures IndexOf(kv, k) < 0 ==> r == kv + [Binding(k, e)]
  {
    var i := IndexOf(kv, k);
    if i >= 0 then kv[i := Binding(k, e)] else kv + [Binding(k, e)]
  }

  ghost predicate DistinctKeys<T, V>(kv: seq<Binding<T, V>>)
  {
    forall i, j :: 0 <= i < j < |kv| ==> kv[i].key != kv[j].key
  }

  lemma IndexOfUnique<T, V>(kv: seq<Binding<T, V>>, k: string, j: int)
    requires DistinctKeys(kv) && 0 <= j < |kv| && kv[j].key == k
    ensures IndexOf(kv, k) == j
  {
  }

  lemma LookupStore<T, V>(kv: seq<Binding<T, V>>, k: string, e: Entry<T, V>, k': string)
    requires DistinctKeys(kv)
    ensures DistinctKeys(Store(kv, k, e))
    ensures Lookup(Store(kv, k, e), k) == Some(e)
    ensures k' != k ==> Lookup(Store(kv, k, e), k') == Lookup(kv, k')
  {
    var r := Store(kv, k, e);
    var i := IndexOf(kv, k);
    var j := if i >= 0 then i else |kv|;
    assert DistinctKeys(r);
    IndexOfUnique(r, k, j);
    if k' != k {
      var j' := IndexOf(kv, k');
      if j' >= 0 {
        IndexOfUnique(r, k', j');
      } else {
        assert forall n :: 0 <= n < |r| ==> r[n].key != k';
      }
    }
  }

  /** Overwriting an entry leaves the sequence of keys, and so every
      position found, as it was. */
  lemma {:induction false} IndexOfSameKeys<T, V>(kv: seq<Binding<T, V>>, kv': seq<Binding<T, V>>, k: string)
    requires |kv| == |kv'| && forall n :: 0 <= n < |kv| ==> kv[n].key == kv'[n].key
    ensures IndexOf(kv, k) == IndexOf(kv', k)
    decreases |kv|
  {
    if kv != [] && kv[|kv| - 1].key != k {
      IndexOfSameKeys(kv[..|kv| - 1], kv'[..|kv'| - 1], k);
    }
  }

  /** `d[k] = e` then `d.get(k)` is e and every other key reads as before,
      whatever the dictionary. */
  lemma LookupAfterStore<T, V>(kv: seq<Binding<T, V>>, k: string, e: Entry<T, V>, k': string)
    ensures Lookup(Store(kv, k, e), k) == Some(e)
    ensures k' != k ==> Lookup(Store(kv, k, e), k') == Lookup(kv, k')
  {
    var r := Store(kv, k, e);
    var i := IndexOf(kv, k);
    if i >= 0 {
      IndexOfSameKeys(kv, r, k);
      IndexOfSameKeys(kv, r, k');
    } else {
      assert r[..|kv|] == kv;
    }
  }

  /** `DtConfig(prefix)`: an empty group whose prefix gains a "." when it is
      not empty. */
  function NewConfig<T, V>(prefix: string): (c: DtConfig<T, V>)
    ensures c.keyvals == []
    ensures prefix != "" ==> c.prefix == prefix + "."
    ensures prefix == "" ==> c.prefix == ""
  {
    DtConfig(if prefix != "" then prefix + "." else "", [])
  }

  //---- Registration ----

  datatype Registered<T, V> = Registered(cfg: DtConfig<T, V>, error: Option<OptionError>)

  /** `register_option(key, typ, default, doc)`. A dotted key is split at its
      first "."; the group named by the first segment is created on demand (and
      stays even when the rest of the registration then fails, since Python
      inserts it before recursing), and the rest is registered inside it. The
      state after the call is returned together with the exception raised, if
      any. */
  function Register<T, V>(c: DtConfig<T, V>, key: string, typ: T, default: V, doc: string,
                          isType: (V, T) -> bool): (r: Registered<T, V>)
    ensures r.cfg.prefix == c.prefix
    ensures key != "" && key[0] == '.' ==> r == Registered(c, Some(InvalidName(key)))
    ensures '.' !in key && Lookup(c.keyvals, key).Some? ==>
              r == Registered(c, Some(AlreadyRegistered(c.prefix + key)))
    ensures '.' !in key && Lookup(c.keyvals, key).None? && !isType(default, typ) ==>
              r == Registered(c, Some(BadDefault))
    ensures '.' !in key && Lookup(c.keyvals, key).None? && isType(default, typ) ==>
              r.error == None &&
              r.cfg.keyvals == c.keyvals + [Binding(key, Opt(DtOption(typ, default, default, doc)))]
    decreases |key|
  {
    var idot := FindChar(key, '.');
    if idot == 0 then Registered(c, Some(InvalidName(key)))
    else if idot > 0 then
      var prekey := key[..idot];
      var preval := Lookup(c.keyvals, prekey);
      if preval.Some? && preval.value.Opt? then
        Registered(c, Some(PrefixIsOption(c.prefix + key, c.prefix + prekey)))
      else
        var group := if preval.None? then NewConfig(c.prefix + prekey) else preval.value.cfg;
        var sub := Register(group, key[idot + 1..], typ, default, doc, isType);
        Registered(DtConfig(c.prefix, Store(c.keyvals, prekey, Group(sub.cfg))), sub.error)
    else if Lookup(c.keyvals, key).Some? then
      Registered(c, Some(AlreadyRegistered(c.prefix + key)))
    else if !isType(default, typ) then
      Registered(c, Some(BadDefault))
    else
      Registered(DtConfig(c.prefix, Store(c.keyvals, key, Opt(DtOption(typ, default, default, doc)))), None)
  }

  //---- Lookup ----

  /** The entry a path of keys leads to, descending through groups. */
  function EntryAt<T, V>(c: DtConfig<T, V>, path: seq<string>): Option<Entry<T, V>>
    decreases |path|
  {
    if path == [] then None
    else match Lookup(c.keyvals, path[0])
      case None => None
      case Some(e) =>
        if |path| == 1 then Some(e)
        else if e.Group? then EntryAt(e.cfg, path[1..])
        else None
  }

  /** What `_get_opt` and `__getattr__` hand back: an entry of the tree itself
      (by its path, as Python returns the object, not a copy), an option's
      value, or the dictionary `__getattr__("")` builds. */
  datatype Found<V> = At(path: seq<string>) | Plain(value: V) | Dict(d: map<string, V>)

  /** `_get_opt(key)`: a key of this group gives its entry; otherwise a dotted
      key whose first segment is a key here is passed on to that entry's
      `__getattr__`, which yields an option's VALUE rather than the option. */
  function GetOpt<T, V>(c: DtConfig<T, V>, key: string): (r: Result<Found<V>, OptionError>)
    ensures Lookup(c.keyvals, key).Some? ==> r == Ok(At([key]))
    ensures r.Ok? && r.value.At? ==> EntryAt(c, r.value.path).Some?
    ensures r.Ok? && r.value.At? && |r.value.path| == 1 ==> r.value.path == [key]
    ensures r.Ok? && r.value.At? && |r.value.path| != 1 ==> EntryAt(c, r.value.path).value.Group?
    decreases |key|, 0
  {
    if Lookup(c.keyvals, key).Some? then Ok(At([key]))
    else
      var idot := FindChar(key, '.');
      if idot >= 0 && Lookup(c.keyvals, key[..idot]).Some? then
        var prefix := key[..idot];
        match Lookup(c.keyvals, prefix).value
        case Opt(_) => Err(NoAttribute)
        case Group(g) =>
          match GetAttr(g, key[idot + 1..])
          case Ok(At(p)) => Ok(At([prefix] + p))
          case other => other
      else Err(UnknownOption(c.prefix + key))
  }

  /** `__getattr__(key)`, which `get(key)` calls: an option's value, a group
      (as a path), or for the empty key every option of this group flattened
      into one dictionary. */
  function GetAttr<T, V>(c: DtConfig<T, V>, key: string): (r: Result<Found<V>, OptionError>)
    ensures key == "" ==> r == Ok(Dict(Flatten(c)))
    ensures r.Ok? && r.value.At? ==>
              EntryAt(c, r.value.path).Some? && EntryAt(c, r.value.path).value.Group?
    decreases |key|, 1
  {
    if key != "" then
      match GetOpt(c, key)
      case Ok(At(p)) =>
        (match EntryAt(c, p).value
         case Opt(o) => Ok(Plain(o.value))
         case Group(_) => Ok(At(p)))
      case other => other
    else Ok(Dict(Flatten(c)))
  }

  /** `__getattr__("")`: each option's full name mapped to its value, the
      groups' dictionaries merged in with `dict.update` in insertion order. */
  function Flatten<T, V>(c: DtConfig<T, V>): (r: map<string, V>)
    ensures forall n :: 0 <= n < |c.keyvals| && c.keyvals[n].entry.Opt? ==> c.prefix + c.keyvals[n].key in r
  {
    FlattenInto(c, 0, map[])
  }

  function FlattenInto<T, V>(c: DtConfig<T, V>, i: nat, acc: map<string, V>): (r: map<string, V>)
    requires i <= |c.keyvals|
    ensures acc.Keys <= r.Keys
    ensures forall n :: i <= n < |c.keyvals| && c.keyvals[n].entry.Opt? ==> c.prefix + c.keyvals[n].key in r
    decreases c, |c.keyvals| - i
  {
    if i == |c.keyvals| then acc
    else match c.keyvals[i].entry
      case Opt(o) => FlattenInto(c, i + 1, acc[c.prefix + c.keyvals[i].key := o.value])
      case Group(g) => FlattenInto(c, i + 1, acc + FlattenInto(g, 0, map[]))
  }

  //---- Modification ----

  /** `__setattr__(key, val)`, which `set(key, val)` calls. Only an option
      that is a key of this very group is found as a `DtOption`; any other
      successful lookup, including a dotted key that leads to an option, lands
      in the "Cannot modify group" branch. */
  function Set<T, V>(c: DtConfig<T, V>, key: string, val: V, isType: (V, T) -> bool): (r: Result<DtConfig<T, V>, OptionError>)
    ensures r.Ok? ==> r.value.prefix == c.prefix
    ensures r.Ok? <==> (match Lookup(c.keyvals, key)
                        case Some(Opt(o)) => isType(val, o.typ)
                        case _ => false)
    ensures r.Ok? ==>
              r.value.keyvals == Store(c.keyvals, key, Opt(Lookup(c.keyvals, key).value.opt.(value := val)))
    ensures (match Lookup(c.keyvals, key) case Some(Opt(o)) => !isType(val, o.typ) case _ => false) ==>
              r == Err(InvalidValue(c.prefix + key))
    ensures GetOpt(c, key).Err? ==> r == Err(GetOpt(c, key).error)
    ensures GetOpt(c, key).Ok? && !(Lookup(c.keyvals, key).Some? && Lookup(c.keyvals, key).value.Opt?) ==>
              r == Err(CannotModifyGroup(c.prefix + key))
  {
    match GetOpt(c, key)
    case Err(e) => Err(e)
    case Ok(At(p)) =>
      (match EntryAt(c, p).value
       case Opt(o) =>
         if isType(val, o.typ) then Ok(DtConfig(c.prefix, Store(c.keyvals, key, Opt(o.(value := val)))))
         else Err(InvalidValue(c.prefix + key))
       case Group(_) => Err(CannotModifyGroup(c.prefix + key)))
    case Ok(_) => Err(CannotModifyGroup(c.prefix + key))
  }

  /** `__delattr__(key)`, which `reset(key)` calls: an option goes back to its
      default, a group (or, for the empty key, this group) has all its options
      reset, recursively. A dotted key that leads to an option yields the
      option's value, which has no attribute to delete. */
  function Reset<T, V>(c: DtConfig<T, V>, key: string): (r: Result<DtConfig<T, V>, OptionError>)
    ensures key == "" ==> r == Ok(ResetAll(c))
    ensures r.Ok? ==> r.value.prefix == c.prefix
    ensures key != "" && Lookup(c.keyvals, key).Some? && Lookup(c.keyvals, key).value.Opt? ==>
              r.Ok? && r.value.keyvals == Store(c.keyvals, key,
                Opt(Lookup(c.keyvals, key).value.opt.(value := Lookup(c.keyvals, key).value.opt.default)))
    ensures key != "" && Lookup(c.keyvals, key).Some? && Lookup(c.keyvals, key).value.Group? ==>
              r.Ok? && r.value.keyvals == Store(c.keyvals, key, Group(ResetAll(Lookup(c.keyvals, key).value.cfg)))
    ensures key != "" && GetOpt(c, key).Err? ==> r == Err(GetOpt(c, key).error)
    ensures key != "" && GetOpt(c, key).Ok? && GetOpt(c, key).value.At? &&
            EntryAt(c, GetOpt(c, key).value.path).value.Group? ==>
              r.Ok? && EntryAt(r.value, GetOpt(c, key).value.path) ==
                Some(Group(ResetAll(EntryAt(c, GetOpt(c, key).value.path).value.cfg)))
    ensures key != "" && GetOpt(c, key).Ok? && !GetOpt(c, key).value.At? ==> r == Err(NoAttribute)
  {
    if key == "" then Ok(ResetAll(c))
    else match GetOpt(c, key)
      case Err(e) => Err(e)
      case Ok(At(p)) =>
        (match EntryAt(c, p).value
         case Opt(o) => Ok(DtConfig(c.prefix, Store(c.keyvals, key, Opt(o.(value := o.default)))))
         case Group(_) => Ok(ResetGroupAt(c, p)))
      case Ok(_) => Err(NoAttribute)
  }

  /** Reset, in place, every option of the group a path leads to. */
  function ResetGroupAt<T, V>(c: DtConfig<T, V>, path: seq<string>): (r: DtConfig<T, V>)
    requires EntryAt(c, path).Some? && EntryAt(c, path).value.Group?
    ensures r.prefix == c.prefix
    ensures |path| == 1 ==> r.keyvals == Store(c.keyvals, path[0], Group(ResetAll(EntryAt(c, path).value.cfg)))
    ensures EntryAt(r, path) == Some(Group(ResetAll(EntryAt(c, path).value.cfg)))
    decreases |path|
  {
    var g := Lookup(c.keyvals, path[0]).value.cfg;
    if |path| == 1 then
      LookupAfterStore(c.keyvals, path[0], Group(ResetAll(g)), path[0]);
      DtConfig(c.prefix, Store(c.keyvals, path[0], Group(ResetAll(g))))
    else
      var g' := ResetGroupAt(g, path[1..]);
      LookupAfterStore(c.keyvals, path[0], Group(g'), path[0]);
      DtConfig(c.prefix, Store(c.keyvals, path[0], Group(g')))
  }

  /** Resetting a group leaves every key of the top group other than the
      path's first one as it was. */
  lemma ResetGroupAtKeepsKeys<T, V>(c: DtConfig<T, V>, path: seq<string>, k: string)
    requires EntryAt(c, path).Some? && EntryAt(c, path).value.Group?
    requires k != path[0]
    ensures Lookup(ResetGroupAt(c, path).keyvals, k) == Lookup(c.keyvals, k)
  {
    var g := Lookup(c.keyvals, path[0]).value.cfg;
    var e := if |path| == 1 then Group(ResetAll(g)) else Group(ResetGroupAt(g, path[1..]));
    assert ResetGroupAt(c, path).keyvals == Store(c.keyvals, path[0], e);
    LookupAfterStore(c.keyvals, path[0], e, k);
  }

  /** Every entry on a path that branches off the reset path (the two differ
      at some position i) is left exactly as it was. */
  lemma {:induction false} ResetGroupAtFrame<T, V>(c: DtConfig<T, V>, path: seq<string>, q: seq<string>, i: nat)
    requires EntryAt(c, path).Some? && EntryAt(c, path).value.Group?
    requires i < |q| && i < |path| && q[i] != path[i]
    ensures EntryAt(ResetGroupAt(c, path), q) == EntryAt(c, q)
    decreases |path|
  {
    if q[0] == path[0] {
      var g := Lookup(c.keyvals, path[0]).value.cfg;
      var g' := ResetGroupAt(g, path[1..]);
      assert ResetGroupAt(c, path).keyvals == Store(c.keyvals, path[0], Group(g'));
      LookupAfterStore(c.keyvals, path[0], Group(g'), path[0]);
      ResetGroupAtFrame(g, path[1..], q[1..], i - 1);
    } else {
      ResetGroupAtKeepsKeys(c, path, q[0]);
    }
  }

  /** `__delattr__("")`: every option of the group and of its subgroups back to
      its default. */
  function ResetAll<T, V>(c: DtConfig<T, V>): (r: DtConfig<T, V>)
    ensures r.prefix == c.prefix && |r.keyvals| == |c.keyvals|
    decreases c, 1
  {
    DtConfig(c.prefix, ResetFrom(c, 0))
  }

  function ResetFrom<T, V>(c: DtConfig<T, V>, i: nat): (r: seq<Binding<T, V>>)
    requires i <= |c.keyvals|
    ensures |r| == |c.keyvals| - i
    decreases c, 0, |c.keyvals| - i
  {
    if i == |c.keyvals| then [] else [ResetBinding(c.keyvals[i])] + ResetFrom(c, i + 1)
  }

  function ResetBinding<T, V>(b: Binding<T, V>): (r: Binding<T, V>)
    ensures r.key == b.key && r.entry.Opt? == b.entry.Opt?
    ensures b.entry.Opt? ==> r.entry.opt.value == b.entry.opt.default
    ensures b.entry.Opt? ==> r.entry.opt.(value := b.entry.opt.value) == b.entry.opt
    ensures b.entry.Group? ==> r.entry.cfg.prefix == b.entry.cfg.prefix
    decreases b, 0, 0
  {
    match b.entry
    case Opt(o) => Binding(b.key, Opt(o.(value := o.default)))
    case Group(g) => Binding(b.key, Group(ResetAll(g)))
  }

  //---- The shape registration maintains ----

  /** Keys are unique and contain no "."; a group's key is not empty and its
      prefix is its parent's prefix, the key and ".". */
  ghost predicate WF<T, V>(c: DtConfig<T, V>)
    decreases c, 1
  {
    DistinctKeys(c.keyvals) &&
    forall i :: 0 <= i < |c.keyvals| ==> WFBinding(c.prefix, c.keyvals[i])
  }

  ghost predicate WFBinding<T, V>(prefix: string, b: Binding<T, V>)
    decreases b, 0
  {
    '.' !in b.key &&
    (b.entry.Group? ==> b.key != "" && b.entry.cfg.prefix == prefix + b.key + "." && WF(b.entry.cfg))
  }

  /** An option of the tree with its full dotted name. */
  datatype Leaf<T, V> = Leaf(name: string, opt: DtOption<T, V>)

  /** Every option of the tree, in the order `get("")` visits them. */
  ghost function Leaves<T, V>(c: DtConfig<T, V>): seq<Leaf<T, V>>
  {
    LeavesFrom(c, 0)
  }

  ghost function LeavesFrom<T, V>(c: DtConfig<T, V>, i: nat): seq<Leaf<T, V>>
    requires i <= |c.keyvals|
    decreases c, |c.keyvals| - i
  {
    if i == |c.keyvals| then [] else BindingLeaves(c.prefix, c.keyvals[i]) + LeavesFrom(c, i + 1)
  }

  ghost function BindingLeaves<T, V>(prefix: string, b: Binding<T, V>): seq<Leaf<T, V>>
    decreases b, 0
  {
    match b.entry
    case Opt(o) => [Leaf(prefix + b.key, o)]
    case Group(g) => LeavesFrom(g, 0)
  }

  ghost predicate StartsWith(s: string, p: string)
  {
    |p| <= |s| && s[..|p|] == p
  }

  /** The first dot-separated segment of a name. */
  function Segment(s: string): string
  {
    var d := FindChar(s, '.');
    if d < 0 then s else s[..d]
  }

  ghost predicate NamesDistinct<T, V>(ls: seq<Leaf<T, V>>)
  {
    forall a, b :: 0 <= a < b < |ls| ==> ls[a].name != ls[b].name
  }

  lemma SegmentOf(k: string, x: string)
    requires '.' !in k
    ensures Segment(k) == k
    ensures Segment(k + "." + x) == k
  {
    var s := k + "." + x;
    var d := FindChar(s, '.');
    assert s[|k|] == '.';
  }

  lemma {:induction false} LeafOrigin<T, V>(c: DtConfig<T, V>, i: nat, l: Leaf<T, V>)
    requires i <= |c.keyvals| && l in LeavesFrom(c, i)
    ensures exists j :: i <= j < |c.keyvals| && l in BindingLeaves(c.prefix, c.keyvals[j])
    decreases |c.keyvals| - i
  {
    if l !in BindingLeaves(c.prefix, c.keyvals[i]) {
      LeafOrigin(c, i + 1, l);
    }
  }

  /** A binding's options are named by the parent's prefix followed by a
      remainder whose first segment is the binding's key. */
  lemma {:induction false} BindingLeavesShape<T, V>(prefix: string, b: Binding<T, V>, l: Leaf<T, V>)
    requires WFBinding(prefix, b) && l in BindingLeaves(prefix, b)
    ensures StartsWith(l.name, prefix)
    ensures Segment(l.name[|prefix|..]) == b.key
    decreases b
  {
    match b.entry
    case Opt(o) =>
      assert l.name == prefix + b.key;
      assert l.name[|prefix|..] == b.key;
      SegmentOf(b.key, "");
    case Group(g) =>
      LeafOrigin(g, 0, l);
      var j :| 0 <= j < |g.keyvals| && l in BindingLeaves(g.prefix, g.keyvals[j]);
      BindingLeavesShape(g.prefix, g.keyvals[j], l);
      NameUnderGroup(prefix, b.key, l.name);
      SegmentOf(b.key, l.name[|g.prefix|..]);
  }

  lemma NameUnderGroup(prefix: string, key: string, name: string)
    requires StartsWith(name, prefix + key + ".")
    ensures StartsWith(name, prefix)
    ensures name[|prefix|..] == key + "." + name[|prefix + key + "."|..]
  {
    var gp := prefix + key + ".";
    assert name == gp + name[|gp|..];
    assert name[..|prefix|] == gp[..|prefix|];
  }

  lemma LeavesStartWithPrefix<T, V>(c: DtConfig<T, V>, l: Leaf<T, V>)
    requires WF(c) && l in Leaves(c)
    ensures StartsWith(l.name, c.prefix)
  {
    LeafOrigin(c, 0, l);
    var j :| 0 <= j < |c.keyvals| && l in BindingLeaves(c.prefix, c.keyvals[j]);
    BindingLeavesShape(c.prefix, c.keyvals[j], l);
  }

  lemma DistinctConcat<T, V>(xs: seq<Leaf<T, V>>, ys: seq<Leaf<T, V>>)
    requires NamesDistinct(xs) && NamesDistinct(ys)
    requires forall x, y :: x in xs && y in ys ==> x.name != y.name
    ensures NamesDistinct(xs + ys)
  {
    var zs := xs + ys;
    forall a, b | 0 <= a < b < |zs| ensures zs[a].name != zs[b].name {
      if b < |xs| {
        assert zs[a] == xs[a] && zs[b] == xs[b];
      } else if a >= |xs| {
        assert zs[a] == ys[a - |xs|] && zs[b] == ys[b - |xs|];
      } else {
        assert zs[a] in xs && zs[b] in ys;
      }
    }
  }

  /** In a well-formed tree no two options share a full name. */
  lemma {:induction false} LeavesDistinct<T, V>(c: DtConfig<T, V>, i: nat)
    requires WF(c) && i <= |c.keyvals|
    ensures NamesDistinct(LeavesFrom(c, i))
    decreases c, |c.keyvals| - i
  {
    if i < |c.keyvals| {
      var b := c.keyvals[i];
      var here := BindingLeaves(c.prefix, b);
      var rest := LeavesFrom(c, i + 1);
      match b.entry {
        case Opt(_) =>
        case Group(g) => LeavesDistinct(g, 0);
      }
      LeavesDistinct(c, i + 1);
      forall x, y | x in here && y in rest ensures x.name != y.name {
        BindingLeavesShape(c.prefix, b, x);
        LeafOrigin(c, i + 1, y);
        var j :| i + 1 <= j < |c.keyvals| && y in BindingLeaves(c.prefix, c.keyvals[j]);
        BindingLeavesShape(c.prefix, c.keyvals[j], y);
        assert c.keyvals[i].key != c.keyvals[j].key;
      }
      DistinctConcat(here, rest);
    }
  }

  //---- get(""): the flattened dictionary ----

  /** The dictionary `dict.update` builds from a sequence of options, one
      assignment at a time. */
  ghost function FoldLeaves<T, V>(acc: map<string, V>, ls: seq<Leaf<T, V>>): map<string, V>
    decreases |ls|
  {
    if ls == [] then acc else FoldLeaves(acc[ls[0].name := ls[0].opt.value], ls[1..])
  }

  lemma {:induction false} FoldConcat<T, V>(acc: map<string, V>, xs: seq<Leaf<T, V>>, ys: seq<Leaf<T, V>>)
    ensures FoldLeaves(acc, xs + ys) == FoldLeaves(FoldLeaves(acc, xs), ys)
    decreases |xs|
  {
    if xs != [] {
      assert (xs + ys)[0] == xs[0] && (xs + ys)[1..] == xs[1..] + ys;
      FoldConcat(acc[xs[0].name := xs[0].opt.value], xs[1..], ys);
    } else {
      assert xs + ys == ys;
    }
  }

  lemma {:induction false} FoldUnion<T, V>(acc: map<string, V>, ls: seq<Leaf<T, V>>)
    ensures FoldLeaves(acc, ls) == acc + FoldLeaves(map[], ls)
    decreases |ls|
  {
    if ls != [] {
      var n, v := ls[0].name, ls[0].opt.value;
      FoldUnion(acc[n := v], ls[1..]);
      FoldUnion(map[n := v], ls[1..]);
      assert map[][n := v] == map[n := v];
      assert acc[n := v] + FoldLeaves(map[], ls[1..]) == acc + (map[n := v] + FoldLeaves(map[], ls[1..]));
    }
  }

  /** The fold with distinct names keeps each option's value under its name. */
  lemma {:induction false} FoldDistinct<T, V>(acc: map<string, V>, ls: seq<Leaf<T, V>>)
    requires NamesDistinct(ls)
    ensures forall k :: 0 <= k < |ls| ==> ls[k].name in FoldLeaves(acc, ls) && FoldLeaves(acc, ls)[ls[k].name] == ls[k].opt.value
    decreases |ls|
  {
    if ls != [] {
      var n, v := ls[0].name, ls[0].opt.value;
      assert NamesDistinct(ls[1..]);
      FoldDistinct(acc[n := v], ls[1..]);
      FirstNameNotLater(ls);
      NotFoldedKeepsValue(acc[n := v], ls[1..], n);
      forall k | 0 < k < |ls| ensures ls[k] == ls[1..][k - 1] { }
    }
  }

  lemma FirstNameNotLater<T, V>(ls: seq<Leaf<T, V>>)
    requires NamesDistinct(ls) && ls != []
    ensures forall j :: 0 <= j < |ls[1..]| ==> ls[1..][j].name != ls[0].name
  {
    forall j | 0 <= j < |ls[1..]| ensures ls[1..][j].name != ls[0].name {
      assert ls[1..][j] == ls[j + 1];
    }
  }

  /** The fold adds exactly the options' names to the keys it starts from. */
  lemma {:induction false} FoldKeys<T, V>(acc: map<string, V>, ls: seq<Leaf<T, V>>)
    ensures FoldLeaves(acc, ls).Keys == acc.Keys + set l | l in ls :: l.name
    decreases |ls|
  {
    if ls != [] {
      FoldKeys(acc[ls[0].name := ls[0].opt.value], ls[1..]);
      assert (set l | l in ls :: l.name) == {ls[0].name} + set l | l in ls[1..] :: l.name by {
        assert forall l :: l in ls ==> l == ls[0] || l in ls[1..];
      }
    }
  }

  lemma {:induction false} NotFoldedKeepsValue<T, V>(acc: map<string, V>, ls: seq<Leaf<T, V>>, n: string)
    requires n in acc
    requires forall j :: 0 <= j < |ls| ==> ls[j].name != n
    ensures n in FoldLeaves(acc, ls) && FoldLeaves(acc, ls)[n] == acc[n]
    decreases |ls|
  {
    if ls != [] {
      NotFoldedKeepsValue(acc[ls[0].name := ls[0].opt.value], ls[1..], n);
    }
  }

  /** `FlattenInto` is the fold over the options in tree order. */
  lemma {:induction false} FlattenIsFold<T, V>(c: DtConfig<T, V>, i: nat, acc: map<string, V>)
    requires i <= |c.keyvals|
    ensures FlattenInto(c, i, acc) == FoldLeaves(acc, LeavesFrom(c, i))
    decreases c, |c.keyvals| - i
  {
    if i < |c.keyvals| {
      var here := BindingLeaves(c.prefix, c.keyvals[i]);
      var rest := LeavesFrom(c, i + 1);
      match c.keyvals[i].entry {
        case Opt(o) =>
          var acc' := acc[c.prefix + c.keyvals[i].key := o.value];
          FlattenIsFold(c, i + 1, acc');
          FoldConcat(acc, here, rest);
        case Group(g) =>
          FlattenIsFold(g, 0, map[]);
          FoldUnion(acc, here);
          FlattenIsFold(c, i + 1, acc + FlattenInto(g, 0, map[]));
          FoldConcat(acc, here, rest);
      }
    }
  }

  /** `get("")` maps the full name of every option of a well-formed tree to
      its current value, and holds no other key. */
  lemma FlattenCoversLeaves<T, V>(c: DtConfig<T, V>)
    requires WF(c)
    ensures forall k :: 0 <= k < |Leaves(c)| ==>
              Leaves(c)[k].name in Flatten(c) && Flatten(c)[Leaves(c)[k].name] == Leaves(c)[k].opt.value
    ensures Flatten(c).Keys == set l | l in Leaves(c) :: l.name
  {
    LeavesDistinct(c, 0);
    FlattenIsFold(c, 0, map[]);
    FoldDistinct(map[], Leaves(c));
    FoldKeys(map[], Leaves(c));
  }

  //---- What registration does to the tree ----

  lemma StoreKeepsWF<T, V>(c: DtConfig<T, V>, k: string, e: Entry<T, V>)
    requires WF(c) && WFBinding(c.prefix, Binding(k, e))
    ensures WF(DtConfig(c.prefix, Store(c.keyvals, k, e)))
  {
    LookupStore(c.keyvals, k, e, k);
  }

  lemma LookupInWF<T, V>(c: DtConfig<T, V>, k: string)
    requires WF(c) && Lookup(c.keyvals, k).Some?
    ensures WFBinding(c.prefix, Binding(k, Lookup(c.keyvals, k).value))
  {
    assert c.keyvals[IndexOf(c.keyvals, k)] == Binding(k, Lookup(c.keyvals, k).value);
  }

  /** Registration keeps the tree well formed, whether it succeeds or not. */
  lemma {:induction false} RegisterKeepsWF<T, V>(c: DtConfig<T, V>, key: string, typ: T, default: V, doc: string,
                                                 isType: (V, T) -> bool)
    requires WF(c)
    ensures WF(Register(c, key, typ, default, doc, isType).cfg)
    decreases |key|
  {
    var idot := FindChar(key, '.');
    if idot > 0 {
      var prekey := key[..idot];
      var preval := Lookup(c.keyvals, prekey);
      if !(preval.Some? && preval.value.Opt?) {
        var group := if preval.None? then NewConfig(c.prefix + prekey) else preval.value.cfg;
        if preval.Some? {
          LookupInWF(c, prekey);
        }
        RegisterKeepsWF(group, key[idot + 1..], typ, default, doc, isType);
        var sub := Register(group, key[idot + 1..], typ, default, doc, isType);
        StoreKeepsWF(c, prekey, Group(sub.cfg));
      }
    } else if idot < 0 && Lookup(c.keyvals, key).None? && isType(default, typ) {
      StoreKeepsWF(c, key, Opt(DtOption(typ, default, default, doc)));
    }
  }

  lemma {:induction false} LeavesAppend<T, V>(c: DtConfig<T, V>, b: Binding<T, V>, i: nat)
    requires i <= |c.keyvals|
    ensures LeavesFrom(DtConfig(c.prefix, c.keyvals + [b]), i) == LeavesFrom(c, i) + BindingLeaves(c.prefix, b)
    decreases |c.keyvals| - i
  {
    var c' := DtConfig(c.prefix, c.keyvals + [b]);
    if i < |c.keyvals| {
      LeavesAppend(c, b, i + 1);
      assert c'.keyvals[i] == c.keyvals[i];
    } else {
      assert LeavesFrom(c', i + 1) == [];
    }
  }

  /** Replacing one binding by another with the same options leaves the tree's
      options as they were. */
  lemma {:induction false} LeavesReplaceSame<T, V>(c: DtConfig<T, V>, j: nat, b: Binding<T, V>, i: nat)
    requires i <= |c.keyvals| && j < |c.keyvals|
    requires BindingLeaves(c.prefix, b) == BindingLeaves(c.prefix, c.keyvals[j])
    ensures LeavesFrom(DtConfig(c.prefix, c.keyvals[j := b]), i) == LeavesFrom(c, i)
    decreases |c.keyvals| - i
  {
    if i < |c.keyvals| {
      LeavesReplaceSame(c, j, b, i + 1);
    }
  }

  /** Replacing one binding trades its options for the new binding's. */
  lemma {:induction false} LeavesReplace<T, V>(c: DtConfig<T, V>, j: nat, b: Binding<T, V>, i: nat)
    requires i <= j < |c.keyvals|
    ensures multiset(LeavesFrom(DtConfig(c.prefix, c.keyvals[j := b]), i)) + multiset(BindingLeaves(c.prefix, c.keyvals[j]))
         == multiset(LeavesFrom(c, i)) + multiset(BindingLeaves(c.prefix, b))
    decreases |c.keyvals| - i
  {
    var c' := DtConfig(c.prefix, c.keyvals[j := b]);
    var old_ := BindingLeaves(c.prefix, c.keyvals[j]);
    var new_ := BindingLeaves(c.prefix, b);
    if i < j {
      LeavesReplace(c, j, b, i + 1);
      assert c'.keyvals[i] == c.keyvals[i];
      MultisetStep(BindingLeaves(c.prefix, c.keyvals[i]), LeavesFrom(c, i + 1), LeavesFrom(c', i + 1), old_, new_);
    } else {
      LeavesTail(c, c', i + 1);
    }
  }

  lemma MultisetCancel<X>(a: multiset<X>, g: multiset<X>, b: multiset<X>, x: multiset<X>)
    requires a + g == b + (g + x)
    ensures a == b + x
  {
    assert forall y :: a[y] + g[y] == b[y] + g[y] + x[y] by {
      forall y ensures a[y] + g[y] == b[y] + g[y] + x[y] {
        assert (a + g)[y] == (b + (g + x))[y];
      }
    }
  }

  lemma MultisetStep<X>(h: seq<X>, xs: seq<X>, xs': seq<X>, o: seq<X>, n: seq<X>)
    requires multiset(xs') + multiset(o) == multiset(xs) + multiset(n)
    ensures multiset(h + xs') + multiset(o) == multiset(h + xs) + multiset(n)
  {
    assert multiset(h + xs') == multiset(h) + multiset(xs');
    assert multiset(h + xs) == multiset(h) + multiset(xs);
    assert multiset(h) + multiset(xs') + multiset(o) == multiset(h) + (multiset(xs') + multiset(o));
    assert multiset(h) + multiset(xs) + multiset(n) == multiset(h) + (multiset(xs) + multiset(n));
  }

  lemma {:induction false} LeavesTail<T, V>(c: DtConfig<T, V>, c': DtConfig<T, V>, i: nat)
    requires c.prefix == c'.prefix && i <= |c.keyvals| == |c'.keyvals|
    requires forall n :: i <= n < |c.keyvals| ==> c'.keyvals[n] == c.keyvals[n]
    ensures LeavesFrom(c', i) == LeavesFrom(c, i)
    decreases |c.keyvals| - i
  {
    if i < |c.keyvals| {
      LeavesTail(c, c', i + 1);
    }
  }

  /** A failed registration changes no option (a group it created is empty). */
  lemma {:induction false} RegisterErrorKeepsLeaves<T, V>(c: DtConfig<T, V>, key: string, typ: T, default: V, doc: string,
                                                          isType: (V, T) -> bool)
    requires Register(c, key, typ, default, doc, isType).error.Some?
    ensures Leaves(Register(c, key, typ, default, doc, isType).cfg) == Leaves(c)
    decreases |key|
  {
    var idot := FindChar(key, '.');
    if idot > 0 {
      var prekey := key[..idot];
      var preval := Lookup(c.keyvals, prekey);
      if !(preval.Some? && preval.value.Opt?) {
        var group := if preval.None? then NewConfig(c.prefix + prekey) else preval.value.cfg;
        RegisterErrorKeepsLeaves(group, key[idot + 1..], typ, default, doc, isType);
        var sub := Register(group, key[idot + 1..], typ, default, doc, isType);
        var b := Binding(prekey, Group(sub.cfg));
        var j := IndexOf(c.keyvals, prekey);
        if j >= 0 {
          LeavesReplaceSame(c, j, b, 0);
        } else {
          LeavesAppend(c, b, 0);
        }
      }
    }
  }

  /** Storing a group under a key trades the options of what was there (if
      anything) for the group's. */
  lemma StoreGroupLeaves<T, V>(c: DtConfig<T, V>, k: string, g: DtConfig<T, V>)
    ensures Lookup(c.keyvals, k).None? ==>
              Leaves(DtConfig(c.prefix, Store(c.keyvals, k, Group(g)))) == Leaves(c) + Leaves(g)
    ensures Lookup(c.keyvals, k).Some? && Lookup(c.keyvals, k).value.Group? ==>
              (multiset(Leaves(DtConfig(c.prefix, Store(c.keyvals, k, Group(g))))) + multiset(Leaves(Lookup(c.keyvals, k).value.cfg))
               == multiset(Leaves(c)) + multiset(Leaves(g)))
  {
    var j := IndexOf(c.keyvals, k);
    if j >= 0 {
      LeavesReplace(c, j, Binding(k, Group(g)), 0);
    } else {
      LeavesAppend(c, Binding(k, Group(g)), 0);
    }
  }

  /** Replacing (or adding) a group by one with a single extra option adds that
      option to the tree. */
  lemma GroupGainsLeaf<T, V>(c: DtConfig<T, V>, k: string, g: DtConfig<T, V>, g': DtConfig<T, V>, leaf: Leaf<T, V>)
    requires Lookup(c.keyvals, k) == Some(Group(g)) || (Lookup(c.keyvals, k).None? && g.keyvals == [])
    requires multiset(Leaves(g')) == multiset(Leaves(g)) + multiset{leaf}
    ensures multiset(Leaves(DtConfig(c.prefix, Store(c.keyvals, k, Group(g'))))) == multiset(Leaves(c)) + multiset{leaf}
  {
    StoreGroupLeaves(c, k, g');
    if Lookup(c.keyvals, k).Some? {
      MultisetCancel(multiset(Leaves(DtConfig(c.prefix, Store(c.keyvals, k, Group(g'))))), multiset(Leaves(g)),
                     multiset(Leaves(c)), multiset{leaf});
    } else {
      assert Leaves(g) == [];
    }
  }

  /** How `register_option` handles a dotted key whose first segment is not
      an option: the rest is registered in the (possibly new) group, and the
      group is stored back under the segment. */
  lemma RegisterDotted<T, V>(c: DtConfig<T, V>, key: string, typ: T, default: V, doc: string,
                             isType: (V, T) -> bool, idot: int)
    requires idot == FindChar(key, '.') && idot > 0
    ensures Lookup(c.keyvals, key[..idot]).Some? && Lookup(c.keyvals, key[..idot]).value.Opt? ==>
              Register(c, key, typ, default, doc, isType) ==
                Registered(c, Some(PrefixIsOption(c.prefix + key, c.prefix + key[..idot])))
    ensures !(Lookup(c.keyvals, key[..idot]).Some? && Lookup(c.keyvals, key[..idot]).value.Opt?) ==>
            var preval := Lookup(c.keyvals, key[..idot]);
            var group := if preval.None? then NewConfig(c.prefix + key[..idot]) else preval.value.cfg;
            var sub := Register(group, key[idot + 1..], typ, default, doc, isType);
            Register(c, key, typ, default, doc, isType)
              == Registered(DtConfig(c.prefix, Store(c.keyvals, key[..idot], Group(sub.cfg))), sub.error)
  {
  }

  /** A successful registration adds exactly one option, under the full name
      `prefix + key`, holding the default as its value, and keeps every other. */
  lemma {:induction false} RegisterAddsLeaf<T, V>(c: DtConfig<T, V>, key: string, typ: T, default: V, doc: string,
                                                  isType: (V, T) -> bool)
    requires WF(c) && Register(c, key, typ, default, doc, isType).error.None?
    ensures multiset(Leaves(Register(c, key, typ, default, doc, isType).cfg))
         == multiset(Leaves(c)) + multiset{Leaf(c.prefix + key, DtOption(typ, default, default, doc))}
    decreases |key|, 1
  {
    var idot := FindChar(key, '.');
    if idot > 0 {
      RegisterAddsLeafBelow(c, key, typ, default, doc, isType, idot);
    } else {
      var b := Binding(key, Opt(DtOption(typ, default, default, doc)));
      assert Register(c, key, typ, default, doc, isType).cfg == DtConfig(c.prefix, c.keyvals + [b]);
      LeavesAppend(c, b, 0);
    }
  }

  lemma SplitAtDot(prefix: string, key: string, idot: nat)
    requires idot < |key| && key[idot] == '.'
    ensures prefix + key[..idot] + "." + key[idot + 1..] == prefix + key
  {
    assert key == key[..idot] + "." + key[idot + 1..];
  }

  lemma {:induction false} RegisterAddsLeafBelow<T, V>(c: DtConfig<T, V>, key: string, typ: T, default: V, doc: string,
                                                       isType: (V, T) -> bool, idot: int)
    requires WF(c) && Register(c, key, typ, default, doc, isType).error.None?
    requires idot == FindChar(key, '.') && idot > 0
    ensures multiset(Leaves(Register(c, key, typ, default, doc, isType).cfg))
         == multiset(Leaves(c)) + multiset{Leaf(c.prefix + key, DtOption(typ, default, default, doc))}
    decreases |key|, 0
  {
    var prekey := key[..idot];
    var subkey := key[idot + 1..];
    var preval := Lookup(c.keyvals, prekey);
    RegisterDotted(c, key, typ, default, doc, isType, idot);
    var group := if preval.None? then NewConfig(c.prefix + prekey) else preval.value.cfg;
    var gp := c.prefix + prekey + ".";
    assert group.prefix == gp by {
      if preval.Some? {
        assert preval.value.Group?;
        LookupInWF(c, prekey);
      }
    }
    SplitAtDot(c.prefix, key, idot);
    RegisterAddsLeaf(group, subkey, typ, default, doc, isType);
    var sub := Register(group, subkey, typ, default, doc, isType);
    GroupGainsLeaf(c, prekey, group, sub.cfg, Leaf(c.prefix + key, DtOption(typ, default, default, doc)));
  }

  //---- Looking options up ----

  lemma DottedKeyIsNoKey<T, V>(c: DtConfig<T, V>, k: string)
    requires WF(c) && '.' in k
    ensures Lookup(c.keyvals, k).None?
  {
    forall i | 0 <= i < |c.keyvals| ensures c.keyvals[i].key != k {
      assert WFBinding(c.prefix, c.keyvals[i]);
    }
  }

  /** `get(name)` finds every option of a well-formed tree by its name relative
      to the group asked, as long as that name is not empty and does not end
      in "." (those reach a group's dictionary instead). */
  lemma {:induction false} GetFindsLeaf<T, V>(c: DtConfig<T, V>, l: Leaf<T, V>, rel: string)
    requires WF(c) && l in Leaves(c) && l.name == c.prefix + rel
    requires rel != "" && rel[|rel| - 1] != '.'
    ensures GetAttr(c, rel) == Ok(Plain(l.opt.value))
    decreases c
  {
    LeafOrigin(c, 0, l);
    var j :| 0 <= j < |c.keyvals| && l in BindingLeaves(c.prefix, c.keyvals[j]);
    if c.keyvals[j].entry.Opt? {
      assert l == Leaf(c.prefix + c.keyvals[j].key, c.keyvals[j].entry.opt);
      assert rel == l.name[|c.prefix|..] == c.keyvals[j].key;
      GetFindsKey(c, j);
    } else {
      var rel' := NameBelowGroup(c, j, l, rel);
      GetFindsLeaf(c.keyvals[j].entry.cfg, l, rel');
      GetDescends(c, j, rel', l.opt.value);
    }
  }

  /** An option that is a key of the group is found by that key. */
  lemma GetFindsKey<T, V>(c: DtConfig<T, V>, j: nat)
    requires WF(c) && j < |c.keyvals| && c.keyvals[j].entry.Opt? && c.keyvals[j].key != ""
    ensures GetAttr(c, c.keyvals[j].key) == Ok(Plain(c.keyvals[j].entry.opt.value))
  {
    IndexOfUnique(c.keyvals, c.keyvals[j].key, j);
  }

  /** The name of an option in a subgroup, relative to the parent, is the
      subgroup's key, ".", and the name relative to the subgroup. */
  lemma NameBelowGroup<T, V>(c: DtConfig<T, V>, j: nat, l: Leaf<T, V>, rel: string) returns (rel': string)
    requires WF(c) && j < |c.keyvals| && c.keyvals[j].entry.Group?
    requires l in Leaves(c.keyvals[j].entry.cfg) && l.name == c.prefix + rel
    requires rel != "" && rel[|rel| - 1] != '.'
    ensures l.name == c.keyvals[j].entry.cfg.prefix + rel'
    ensures rel == c.keyvals[j].key + "." + rel'
    ensures rel' != "" && rel'[|rel'| - 1] != '.'
  {
    var g := c.keyvals[j].entry.cfg;
    var k := c.keyvals[j].key;
    assert WFBinding(c.prefix, c.keyvals[j]);
    LeavesStartWithPrefix(g, l);
    rel' := l.name[|g.prefix|..];
    assert l.name == c.prefix + (k + "." + rel');
    assert rel == l.name[|c.prefix|..] == k + "." + rel';
    assert rel' != "" && rel'[|rel'| - 1] == rel[|rel| - 1];
  }

  /** A dotted name whose first segment is a group's key is looked up in that
      group with the rest of the name (as a value, not as an entry). */
  lemma GetOptDescends<T, V>(c: DtConfig<T, V>, j: nat, rest: string)
    requires WF(c) && j < |c.keyvals| && c.keyvals[j].entry.Group?
    ensures GetOpt(c, c.keyvals[j].key + "." + rest)
         == match GetAttr(c.keyvals[j].entry.cfg, rest)
            case Ok(At(p)) => Ok(At([c.keyvals[j].key] + p))
            case other => other
  {
    var k := c.keyvals[j].key;
    var name := k + "." + rest;
    assert WFBinding(c.prefix, c.keyvals[j]);
    IndexOfUnique(c.keyvals, k, j);
    DottedKeyIsNoKey(c, name) by {
      assert name[|k|] == '.';
    }
    SegmentOf(k, rest);
    assert name[..FindChar(name, '.')] == k;
    assert name[|k| + 1..] == rest;
  }

  lemma GetDescends<T, V>(c: DtConfig<T, V>, j: nat, rest: string, v: V)
    requires WF(c) && j < |c.keyvals| && c.keyvals[j].entry.Group?
    requires rest != "" && GetAttr(c.keyvals[j].entry.cfg, rest) == Ok(Plain(v))
    ensures GetAttr(c, c.keyvals[j].key + "." + rest) == Ok(Plain(v))
  {
    GetOptDescends(c, j, rest);
  }

  /** The "Unknown datatable option" error names the key in full, however deep
      the group that rejected it. */
  lemma UnknownNamesFullKey<T, V>(c: DtConfig<T, V>, key: string, n: string)
    requires WF(c) && GetOpt(c, key) == Err(UnknownOption(n))
    ensures n == c.prefix + key
  {
    if key != "" {
      GetAttrShape(c, key);
      assert GetAttr(c, key) == GetOpt(c, key);
    }
  }


  /** The dotted name a path of keys spells. */
  function JoinDots(p: seq<string>): string
  {
    if p == [] then "" else if |p| == 1 then p[0] else p[0] + "." + JoinDots(p[1..])
  }

  /** The tree holds an option of this full name with this value. */
  ghost predicate HasLeaf<T, V>(c: DtConfig<T, V>, name: string, v: V)
  {
    exists l :: l in Leaves(c) && l.name == name && l.opt.value == v
  }

  lemma {:induction false} BindingLeavesInLeavesFrom<T, V>(c: DtConfig<T, V>, i: nat, j: nat)
    requires i <= j < |c.keyvals|
    ensures forall l :: l in BindingLeaves(c.prefix, c.keyvals[j]) ==> l in LeavesFrom(c, i)
    decreases j - i
  {
    if i < j {
      BindingLeavesInLeavesFrom(c, i + 1, j);
    }
  }

  /** What `get(key)` may return: a plain value is the value of the option
      named `prefix + key`; a group comes with the path of keys that spells
      `key`; a dictionary only for "" or a name that ends in "."; and the only
      errors are the unknown option, named in full, and the missing attribute
      of an option's value. */
  ghost predicate ShapeOf<T, V>(c: DtConfig<T, V>, key: string, r: Result<Found<V>, OptionError>)
  {
    (r.Ok? && r.value.Plain? ==> HasLeaf(c, c.prefix + key, r.value.value)) &&
    (r.Ok? && r.value.At? ==> JoinDots(r.value.path) == key) &&
    (r.Ok? && r.value.Dict? ==> key == "" || key[|key| - 1] == '.') &&
    (r.Err? ==> r.error == UnknownOption(c.prefix + key) || r.error == NoAttribute)
  }

  /** The converse of GetFindsLeaf: everything `get(key)` returns has the
      shape ShapeOf describes. */
  lemma {:induction false} GetAttrShape<T, V>(c: DtConfig<T, V>, key: string)
    requires WF(c)
    ensures ShapeOf(c, key, GetAttr(c, key))
    decreases |key|, 1
  {
    if key != "" && Lookup(c.keyvals, key).Some? {
      var j := IndexOf(c.keyvals, key);
      match c.keyvals[j].entry {
        case Opt(o) =>
          assert GetAttr(c, key) == Ok(Plain(o.value));
          OptionIsLeaf(c, j);
        case Group(_) =>
          assert GetAttr(c, key) == Ok(At([key]));
      }
    } else if key != "" {
      var idot := FindChar(key, '.');
      if idot >= 0 && Lookup(c.keyvals, key[..idot]).Some? {
        var j := IndexOf(c.keyvals, key[..idot]);
        if c.keyvals[j].entry.Group? {
          var rest := key[idot + 1..];
          SplitAtDot("", key, idot);
          assert "" + key[..idot] == key[..idot] && "" + key == key;
          assert key == c.keyvals[j].key + "." + rest;
          GetAttrBelow(c, j, rest);
        } else {
          assert GetOpt(c, key) == Err(NoAttribute);
        }
      } else {
        assert GetOpt(c, key) == Err(UnknownOption(c.prefix + key));
      }
    }
  }

  /** An option that is a key of the group is one of the tree's options. */
  lemma OptionIsLeaf<T, V>(c: DtConfig<T, V>, j: nat)
    requires j < |c.keyvals| && c.keyvals[j].entry.Opt?
    ensures HasLeaf(c, c.prefix + c.keyvals[j].key, c.keyvals[j].entry.opt.value)
  {
    BindingLeavesInLeavesFrom(c, 0, j);
    assert Leaf(c.prefix + c.keyvals[j].key, c.keyvals[j].entry.opt) in BindingLeaves(c.prefix, c.keyvals[j]);
  }

  /** The dotted case of GetAttrShape: the rest of the name, in the group
      named by its first segment. */
  lemma {:induction false} GetAttrBelow<T, V>(c: DtConfig<T, V>, j: nat, rest: string)
    requires WF(c) && j < |c.keyvals| && c.keyvals[j].entry.Group?
    ensures ShapeOf(c, c.keyvals[j].key + "." + rest, GetAttr(c, c.keyvals[j].key + "." + rest))
    decreases |c.keyvals[j].key + "." + rest|, 0
  {
    var g := c.keyvals[j].entry.cfg;
    assert WFBinding(c.prefix, c.keyvals[j]);
    GetOptDescends(c, j, rest);
    GetAttrShape(g, rest);
    var sub := GetAttr(g, rest);
    if sub.Ok? && sub.value.At? {
      GetAttrBelowAt(c, j, rest, sub.value.path);
    } else {
      assert GetAttr(c, c.keyvals[j].key + "." + rest) == sub;
      ShapeLift(c, j, rest, sub);
    }
  }

  lemma GetAttrBelowAt<T, V>(c: DtConfig<T, V>, j: nat, rest: string, p: seq<string>)
    requires WF(c) && j < |c.keyvals| && c.keyvals[j].entry.Group?
    requires GetAttr(c.keyvals[j].entry.cfg, rest) == Ok(At(p)) && JoinDots(p) == rest
    requires GetOpt(c, c.keyvals[j].key + "." + rest) == Ok(At([c.keyvals[j].key] + p))
    ensures GetAttr(c, c.keyvals[j].key + "." + rest) == Ok(At([c.keyvals[j].key] + p))
    ensures JoinDots([c.keyvals[j].key] + p) == c.keyvals[j].key + "." + rest
  {
    var k := c.keyvals[j].key;
    var g := c.keyvals[j].entry.cfg;
    assert p != [];
    IndexOfUnique(c.keyvals, k, j);
    assert ([k] + p)[0] == k && ([k] + p)[1..] == p;
    assert EntryAt(c, [k] + p) == EntryAt(g, p);
  }

  /** A value, dictionary or error that a subgroup returns for the rest of a
      name has the same shape for the whole name in the parent. */
  lemma ShapeLift<T, V>(c: DtConfig<T, V>, j: nat, rest: string, r: Result<Found<V>, OptionError>)
    requires WF(c) && j < |c.keyvals| && c.keyvals[j].entry.Group?
    requires ShapeOf(c.keyvals[j].entry.cfg, rest, r) && !(r.Ok? && r.value.At?)
    ensures ShapeOf(c, c.keyvals[j].key + "." + rest, r)
  {
    var key := c.keyvals[j].key + "." + rest;
    var g := c.keyvals[j].entry.cfg;
    assert WFBinding(c.prefix, c.keyvals[j]);
    assert g.prefix + rest == c.prefix + key;
    if r.Ok? && r.value.Plain? {
      var l :| l in Leaves(g) && l.name == g.prefix + rest && l.opt.value == r.value.value;
      BindingLeavesInLeavesFrom(c, 0, j);
      assert l in BindingLeaves(c.prefix, c.keyvals[j]);
    } else if r.Ok? && r.value.Dict? && rest != "" {
      assert key[|key| - 1] == rest[|rest| - 1];
    }
  }

  /** A value `get(key)` returns is the value of the option named
      `prefix + key`. */
  lemma GetValueIsLeaf<T, V>(c: DtConfig<T, V>, key: string, v: V)
    requires WF(c) && GetAttr(c, key) == Ok(Plain(v))
    ensures exists l :: l in Leaves(c) && l.name == c.prefix + key && l.opt.value == v
  {
    GetAttrShape(c, key);
  }

  /** `reset(key)` on a name that `get` resolves to a group resets every
      option of that group, the one whose path spells the name. */
  lemma ResetGroupByName<T, V>(c: DtConfig<T, V>, key: string, p: seq<string>)
    requires WF(c) && GetAttr(c, key) == Ok(At(p))
    ensures JoinDots(p) == key
    ensures Reset(c, key).Ok? && EntryAt(Reset(c, key).value, p) == Some(Group(ResetAll(EntryAt(c, p).value.cfg)))
  {
    GetAttrShape(c, key);
    assert key != "";
    assert GetOpt(c, key) == Ok(At(p));
  }

  /** Looking up a name that is neither an option nor a group of the tree
      raises: `_get_opt`'s "Unknown datatable option" with the full name, or
      the AttributeError of an option's value that has no attribute. */
  lemma GetUnknownFails<T, V>(c: DtConfig<T, V>, key: string)
    requires WF(c) && key != "" && key[|key| - 1] != '.'
    requires forall l :: l in Leaves(c) ==> l.name != c.prefix + key
    requires forall p :: EntryAt(c, p).Some? && EntryAt(c, p).value.Group? ==> JoinDots(p) != key
    ensures GetOpt(c, key).Err? && GetAttr(c, key).Err?
    ensures GetAttr(c, key).error == UnknownOption(c.prefix + key) || GetAttr(c, key).error == NoAttribute
  {
    GetAttrShape(c, key);
  }

  /** After a successful registration the option can be read back by its key,
      and holds its default. */
  lemma RegisterThenGet<T, V>(c: DtConfig<T, V>, key: string, typ: T, default: V, doc: string,
                              isType: (V, T) -> bool)
    requires WF(c) && Register(c, key, typ, default, doc, isType).error.None?
    requires key != "" && key[|key| - 1] != '.'
    ensures WF(Register(c, key, typ, default, doc, isType).cfg)
    ensures GetAttr(Register(c, key, typ, default, doc, isType).cfg, key) == Ok(Plain(default))
  {
    var r := Register(c, key, typ, default, doc, isType);
    var leaf := Leaf(c.prefix + key, DtOption(typ, default, default, doc));
    RegisterKeepsWF(c, key, typ, default, doc, isType);
    RegisterAddsLeaf(c, key, typ, default, doc, isType);
    assert leaf in multiset(Leaves(r.cfg));
    GetFindsLeaf(r.cfg, leaf, key);
  }

  //---- What setting and resetting do to the tree ----

  lemma SetKeepsWF<T, V>(c: DtConfig<T, V>, key: string, val: V, isType: (V, T) -> bool)
    requires WF(c) && Set(c, key, val, isType).Ok?
    ensures WF(Set(c, key, val, isType).value)
  {
    LookupInWF(c, key);
    StoreKeepsWF(c, key, Opt(Lookup(c.keyvals, key).value.opt.(value := val)));
  }

  /** A set that succeeds is read back by `get`, and no other key of the group
      changes. */
  lemma SetThenGet<T, V>(c: DtConfig<T, V>, key: string, val: V, isType: (V, T) -> bool, other: string)
    requires WF(c) && Set(c, key, val, isType).Ok? && key != ""
    ensures GetAttr(Set(c, key, val, isType).value, key) == Ok(Plain(val))
    ensures other != key ==> Lookup(Set(c, key, val, isType).value.keyvals, other) == Lookup(c.keyvals, other)
  {
    LookupStore(c.keyvals, key, Opt(Lookup(c.keyvals, key).value.opt.(value := val)), other);
  }

  /** Setting a dotted name always fails, even one that leads to an option:
      the lookup yields the option's value, and that is not a `DtOption`. */
  lemma SetDottedKeyFails<T, V>(c: DtConfig<T, V>, key: string, val: V, isType: (V, T) -> bool)
    requires WF(c) && '.' in key
    ensures Set(c, key, val, isType).Err?
    ensures GetOpt(c, key).Ok? ==> Set(c, key, val, isType) == Err(CannotModifyGroup(c.prefix + key))
  {
    DottedKeyIsNoKey(c, key);
  }

  /** A dotted name that leads to an option cannot be reset either: the value
      looked up has no `__delattr__`. */
  lemma ResetDottedOptionFails<T, V>(c: DtConfig<T, V>, j: nat, s: string)
    requires WF(c) && j < |c.keyvals| && c.keyvals[j].entry.Group?
    requires Lookup(c.keyvals[j].entry.cfg.keyvals, s).Some? && Lookup(c.keyvals[j].entry.cfg.keyvals, s).value.Opt?
    ensures Reset(c, c.keyvals[j].key + "." + s) == Err(NoAttribute)
  {
    GetOptDescends(c, j, s);
    var g := c.keyvals[j].entry.cfg;
    var found := GetAttr(g, s);
    assert found.Ok? && !found.value.At? by {
      if s != "" {
        assert GetOpt(g, s) == Ok(At([s]));
        assert EntryAt(g, [s]) == Lookup(g.keyvals, s);
      }
    }
  }

  /** A group reached by a path in a well-formed tree is well formed. */
  lemma {:induction false} EntryAtKeepsWF<T, V>(c: DtConfig<T, V>, path: seq<string>)
    requires WF(c) && EntryAt(c, path).Some? && EntryAt(c, path).value.Group?
    ensures WF(EntryAt(c, path).value.cfg)
    decreases |path|
  {
    LookupInWF(c, path[0]);
    if |path| > 1 {
      EntryAtKeepsWF(Lookup(c.keyvals, path[0]).value.cfg, path[1..]);
    }
  }

  /** Resetting a group in place keeps the tree well formed. */
  lemma {:induction false} ResetGroupAtKeepsWF<T, V>(c: DtConfig<T, V>, path: seq<string>)
    requires WF(c) && EntryAt(c, path).Some? && EntryAt(c, path).value.Group?
    ensures WF(ResetGroupAt(c, path))
    decreases |path|
  {
    var g := Lookup(c.keyvals, path[0]).value.cfg;
    LookupInWF(c, path[0]);
    if |path| == 1 {
      ResetAllKeepsWF(g);
      StoreKeepsWF(c, path[0], Group(ResetAll(g)));
    } else {
      ResetGroupAtKeepsWF(g, path[1..]);
      StoreKeepsWF(c, path[0], Group(ResetGroupAt(g, path[1..])));
    }
  }

  /** `reset(key)`, whenever it succeeds, keeps the tree well formed. */
  lemma ResetKeepsWF<T, V>(c: DtConfig<T, V>, key: string)
    requires WF(c) && Reset(c, key).Ok?
    ensures WF(Reset(c, key).value)
  {
    if key == "" {
      ResetAllKeepsWF(c);
    } else {
      var p := GetOpt(c, key).value.path;
      match EntryAt(c, p).value {
        case Opt(o) =>
          assert p == [key];
          LookupInWF(c, key);
          StoreKeepsWF(c, key, Opt(o.(value := o.default)));
        case Group(_) =>
          ResetGroupAtKeepsWF(c, p);
      }
    }
  }

  /** After `reset(key)` on a name that `get` resolves to a group, `get` on
      that group finds every one of its options, at any depth, holding its
      default. */
  lemma ResetGroupThenGet<T, V>(c: DtConfig<T, V>, key: string, p: seq<string>, l: Leaf<T, V>, rel: string)
    requires WF(c) && GetAttr(c, key) == Ok(At(p))
    requires l in Leaves(EntryAt(c, p).value.cfg) && l.name == EntryAt(c, p).value.cfg.prefix + rel
    requires rel != "" && rel[|rel| - 1] != '.'
    ensures Reset(c, key).Ok? && EntryAt(Reset(c, key).value, p).value.Group?
    ensures GetAttr(EntryAt(Reset(c, key).value, p).value.cfg, rel) == Ok(Plain(l.opt.default))
  {
    var g := EntryAt(c, p).value.cfg;
    ResetGroupByName(c, key, p);
    EntryAtKeepsWF(c, p);
    ResetAllKeepsWF(g);
    ResetAllDefaultsLeaves(g, 0);
    var k :| 0 <= k < |Leaves(g)| && Leaves(g)[k] == l;
    assert Leaves(ResetAll(g))[k] == Defaulted(l);
    GetFindsLeaf(ResetAll(g), Defaulted(l), rel);
  }

  /** Resetting an option of this group makes `get` return its default. */
  lemma ResetThenGet<T, V>(c: DtConfig<T, V>, key: string)
    requires WF(c) && key != "" && Lookup(c.keyvals, key).Some? && Lookup(c.keyvals, key).value.Opt?
    ensures Reset(c, key).Ok?
    ensures GetAttr(Reset(c, key).value, key) == Ok(Plain(Lookup(c.keyvals, key).value.opt.default))
  {
    var o := Lookup(c.keyvals, key).value.opt;
    LookupStore(c.keyvals, key, Opt(o.(value := o.default)), key);
  }

  lemma {:induction false} ResetFromAt<T, V>(c: DtConfig<T, V>, i: nat, n: nat)
    requires i <= n < |c.keyvals|
    ensures ResetFrom(c, i)[n - i] == ResetBinding(c.keyvals[n])
    decreases n - i
  {
    if i < n {
      ResetFromAt(c, i + 1, n);
    }
  }

  /** An option with its value back at its default. */
  function Defaulted<T, V>(l: Leaf<T, V>): (r: Leaf<T, V>)
    ensures r.name == l.name && r.opt.value == l.opt.default
    ensures r.opt.(value := l.opt.value) == l.opt
  {
    l.(opt := l.opt.(value := l.opt.default))
  }

  ghost function AllDefaulted<T, V>(ls: seq<Leaf<T, V>>): seq<Leaf<T, V>>
  {
    seq(|ls|, k requires 0 <= k < |ls| => Defaulted(ls[k]))
  }

  /** `reset("")` puts every option of the tree, at any depth, back to its
      default, and changes nothing else about it. */
  lemma {:induction false} ResetAllDefaultsLeaves<T, V>(c: DtConfig<T, V>, i: nat)
    requires i <= |c.keyvals|
    ensures LeavesFrom(ResetAll(c), i) == AllDefaulted(LeavesFrom(c, i))
    decreases c, |c.keyvals| - i
  {
    var r := ResetAll(c);
    if i < |c.keyvals| {
      ResetFromAt(c, 0, i);
      ResetAllDefaultsLeaves(c, i + 1);
      var here := BindingLeaves(c.prefix, c.keyvals[i]);
      match c.keyvals[i].entry {
        case Opt(o) =>
        case Group(g) => ResetAllDefaultsLeaves(g, 0);
      }
      assert BindingLeaves(r.prefix, r.keyvals[i]) == AllDefaulted(here);
      assert AllDefaulted(here + LeavesFrom(c, i + 1)) == AllDefaulted(here) + AllDefaulted(LeavesFrom(c, i + 1));
    }
  }

  lemma {:induction false} ResetAllKeepsWF<T, V>(c: DtConfig<T, V>)
    requires WF(c)
    ensures WF(ResetAll(c))
    decreases c
  {
    var r := ResetAll(c);
    forall n | 0 <= n < |r.keyvals| ensures WFBinding(r.prefix, r.keyvals[n]) && r.keyvals[n].key == c.keyvals[n].key {
      ResetFromAt(c, 0, n);
      assert WFBinding(c.prefix, c.keyvals[n]);
      match c.keyvals[n].entry {
        case Opt(_) =>
        case Group(g) => ResetAllKeepsWF(g);
      }
    }
  }

  /** `reset("")` keeps every key of the group, in its place, and whether it
      holds an option or a group. */
  lemma ResetAllKeepsKeys<T, V>(c: DtConfig<T, V>, n: nat)
    requires n < |c.keyvals|
    ensures ResetAll(c).keyvals[n].key == c.keyvals[n].key
    ensures ResetAll(c).keyvals[n].entry.Opt? == c.keyvals[n].entry.Opt?
  {
    ResetFromAt(c, 0, n);
  }

  /** After `reset("")`, `get("")` maps the name of every option to its default,
      and has the same names as before. */
  lemma ResetAllRestoresDefaults<T, V>(c: DtConfig<T, V>)
    requires WF(c)
    ensures Flatten(ResetAll(c)).Keys == Flatten(c).Keys
    ensures forall k :: 0 <= k < |Leaves(c)| ==>
              Leaves(c)[k].name in Flatten(ResetAll(c)) && Flatten(ResetAll(c))[Leaves(c)[k].name] == Leaves(c)[k].opt.default
  {
    ResetAllKeepsWF(c);
    ResetAllDefaultsLeaves(c, 0);
    FlattenCoversLeaves(c);
    FlattenCoversLeaves(ResetAll(c));
    DefaultedKeepsNames(Leaves(c));
    var ls, ls' := Leaves(c), Leaves(ResetAll(c));
    forall k | 0 <= k < |ls| ensures ls[k].name in Flatten(ResetAll(c)) && Flatten(ResetAll(c))[ls[k].name] == ls[k].opt.default {
      assert ls'[k] == Defaulted(ls[k]);
    }
  }

  lemma DefaultedKeepsNames<T, V>(ls: seq<Leaf<T, V>>)
    ensures (set l | l in AllDefaulted(ls) :: l.name) == set l | l in ls :: l.name
  {
    var ls' := AllDefaulted(ls);
    var before, after := set l | l in ls :: l.name, set l | l in ls' :: l.name;
    forall x | x in before ensures x in after {
      var k :| 0 <= k < |ls| && ls[k].name == x;
      assert ls'[k] in ls' && ls'[k].name == x;
    }
    forall x | x in after ensures x in before {
      var k :| 0 <= k < |ls'| && ls'[k].name == x;
      assert ls[k] in ls && ls[k].name == x;
    }
    assert before == after;
  }


  /** `__delattr__("")` as the source runs it: a loop over the group's entries,
      resetting each option in place and recursing into each subgroup. */
  method ResetInPlace<T, V>(c: DtConfig<T, V>) returns (r: DtConfig<T, V>)
    ensures r == ResetAll(c)
    decreases c
  {
    var kv := c.keyvals;
    var i := 0;
    while i < |kv|
      invariant 0 <= i <= |c.keyvals| == |kv|
      invariant forall n :: 0 <= n < i ==> kv[n] == ResetBinding(c.keyvals[n])
      invariant forall n :: i <= n < |kv| ==> kv[n] == c.keyvals[n]
    {
      match kv[i].entry {
        case Opt(o) =>
          kv := kv[i := Binding(kv[i].key, Opt(o.(value := o.default)))];
        case Group(g) =>
          var g' := ResetInPlace(g);
          kv := kv[i := Binding(kv[i].key, Group(g'))];
      }
      i := i + 1;
    }
    forall n | 0 <= n < |kv| ensures kv[n] == ResetFrom(c, 0)[n] {
      ResetFromAt(c, 0, n);
    }
    r := DtConfig(c.prefix, kv);
  }

  /** `__getattr__("")` as the source runs it: a loop over the group's entries
      that stores each option's value under its full name and merges in each
      subgroup's dictionary with `dict.update`. */
  method FlattenIter<T, V>(c: DtConfig<T, V>) returns (res: map<string, V>)
    ensures res == Flatten(c)
    decreases c
  {
    res := map[];
    var i := 0;
    while i < |c.keyvals|
      invariant 0 <= i <= |c.keyvals|
      invariant FlattenInto(c, i, res) == Flatten(c)
    {
      match c.keyvals[i].entry {
        case Opt(o) =>
          res := res[c.prefix + c.keyvals[i].key := o.value];
        case Group(g) =>
          var sub := FlattenIter(g);
          res := res + sub;
      }
      i := i + 1;
    }
  }
}
