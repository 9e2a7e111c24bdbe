// Command lines: cutting a line into words (server/input/input.cpp and the string form
// of `parse`) and reading options out of the words (utils/option.hpp).

module Words {

  predicate NoSpace(w: string) {
    forall i :: 0 <= i < |w| ==> w[i] != ' '
  }

  predicate NoSpaces(ws: seq<string>) {
    forall i :: 0 <= i < |ws| ==> NoSpace(ws[i])
  }

  predicate NoneEmpty(ws: seq<string>) {
    forall i :: 0 <= i < |ws| ==> ws[i] != ""
  }

  /** Cuts at every single space: one piece more than there are spaces. */
  function Pieces(s: string): (ps: seq<string>)
    ensures ps != []
  {
    if s == "" then [""]
    else
      var ps, c := Pieces(s[..|s| - 1]), s[|s| - 1];
      if c == ' ' then ps + [""] else ps[..|ps| - 1] + [ps[|ps| - 1] + [c]]
  }

  function NonEmpty(ps: seq<string>): seq<string> {
    if ps == [] then []
    else NonEmpty(ps[..|ps| - 1]) + (if ps[|ps| - 1] == "" then [] else [ps[|ps| - 1]])
  }

  /** The pieces that are not empty; but the last piece is a word in any case. */
  function Split(s: string): (ws: seq<string>)
    ensures ws != []
  {
    var ps := Pieces(s);
    NonEmpty(ps[..|ps| - 1]) + [ps[|ps| - 1]]
  }

  method SplitLine(data: string) returns (dataList: seq<string>)
    ensures dataList == Split(data)
  {
    dataList := [];
    var begin, iter := -1, 0;
    while iter < |data|
      invariant -1 <= begin < iter <= |data|
      invariant var ps := Pieces(data[..iter]);
                ps[|ps| - 1] == data[begin + 1..iter] && dataList == NonEmpty(ps[..|ps| - 1])
    {
      ghost var ps := Pieces(data[..iter]);
      assert data[..iter + 1][..iter] == data[..iter];
      if data[iter] == ' ' {
        if iter - begin - 1 > 0 {
          dataList := dataList + [data[begin + 1..iter]];
        }
        begin := iter;
        assert (ps + [""])[..|ps|] == ps;
      } else {
        assert data[begin + 1..iter + 1] == data[begin + 1..iter] + [data[iter]];
        assert (ps[..|ps| - 1] + [data[begin + 1..iter + 1]])[..|ps| - 1] == ps[..|ps| - 1];
      }
      iter := iter + 1;
    }
    assert data[..iter] == data;
    dataList := dataList + [data[begin + 1..iter]];
  }

  function Join(ws: seq<string>): string
    requires ws != []
  {
    if |ws| == 1 then ws[0] else Join(ws[..|ws| - 1]) + " " + ws[|ws| - 1]
  }

  lemma {:induction false} PiecesOfOneMore(s: string, w: string)
    requires NoSpace(w)
    ensures Pieces(s + " " + w) == Pieces(s) + [w]
  {
    if w == "" {
      assert (s + " " + w)[..|s|] == s;
    } else {
      var w' := w[..|w| - 1];
      PiecesOfOneMore(s, w');
      assert (s + " " + w)[..|s| + |w|] == s + " " + w';
      assert w == w' + [w[|w| - 1]];
    }
  }

  lemma {:induction false} PiecesOfWord(w: string)
    requires NoSpace(w)
    ensures Pieces(w) == [w]
  {
    if w != "" {
      PiecesOfWord(w[..|w| - 1]);
      assert w == w[..|w| - 1] + [w[|w| - 1]];
    }
  }

  lemma {:induction false} PiecesOfJoin(ws: seq<string>)
    requires ws != [] && NoSpaces(ws)
    ensures Pieces(Join(ws)) == ws
  {
    if |ws| == 1 {
      PiecesOfWord(ws[0]);
    } else {
      PiecesOfJoin(ws[..|ws| - 1]);
      PiecesOfOneMore(Join(ws[..|ws| - 1]), ws[|ws| - 1]);
    }
  }

  lemma {:induction false} AllNonEmpty(ps: seq<string>)
    requires NoneEmpty(ps)
    ensures NonEmpty(ps) == ps
  {
    if ps != [] {
      AllNonEmpty(ps[..|ps| - 1]);
    }
  }

  /** Words joined by single spaces come back; only the last of them may be empty. */
  lemma SplitJoin(ws: seq<string>)
    requires ws != [] && NoSpaces(ws) && NoneEmpty(ws[..|ws| - 1])
    ensures Split(Join(ws)) == ws
  {
    PiecesOfJoin(ws);
    AllNonEmpty(ws[..|ws| - 1]);
  }

  function Concat(ws: seq<string>): string {
    if ws == [] then "" else Concat(ws[..|ws| - 1]) + ws[|ws| - 1]
  }

  function WithoutSpaces(s: string): string {
    if s == "" then ""
    else WithoutSpaces(s[..|s| - 1]) + (if s[|s| - 1] == ' ' then "" else [s[|s| - 1]])
  }

  lemma {:induction false} NonEmptyKeeps(ps: seq<string>)
    ensures Concat(NonEmpty(ps)) == Concat(ps)
    ensures NoneEmpty(NonEmpty(ps))
    ensures NoSpaces(ps) ==> NoSpaces(NonEmpty(ps))
  {
    if ps != [] {
      NonEmptyKeeps(ps[..|ps| - 1]);
      var rest, last := NonEmpty(ps[..|ps| - 1]), ps[|ps| - 1];
      if last == "" {
        assert NonEmpty(ps) == rest;
      } else {
        assert (rest + [last])[..|rest|] == rest;
      }
    }
  }

  lemma ConcatLast(ws: seq<string>, w: string)
    ensures Concat(ws + [w]) == Concat(ws) + w
  {
    assert (ws + [w])[..|ws|] == ws;
  }

  lemma LongerLast(ws: seq<string>, w: string, c: char)
    ensures Concat(ws + [w + [c]]) == Concat(ws + [w]) + [c]
  {
    ConcatLast(ws, w);
    ConcatLast(ws, w + [c]);
    assert Concat(ws) + (w + [c]) == Concat(ws) + w + [c];
  }

  lemma {:induction false} PiecesText(s: string)
    ensures Concat(Pieces(s)) == WithoutSpaces(s)
  {
    if s == "" {
      ConcatLast([], "");
    } else {
      var c, ps := s[|s| - 1], Pieces(s[..|s| - 1]);
      PiecesText(s[..|s| - 1]);
      if c == ' ' {
        ConcatLast(ps, "");
      } else {
        LongerLast(ps[..|ps| - 1], ps[|ps| - 1], c);
        assert ps[..|ps| - 1] + [ps[|ps| - 1]] == ps;
      }
    }
  }

  lemma {:induction false} PiecesKeep(s: string)
    ensures Concat(Pieces(s)) == WithoutSpaces(s)
    ensures NoSpaces(Pieces(s))
    ensures Pieces(s)[|Pieces(s)| - 1] == "" <==> s == "" || s[|s| - 1] == ' '
  {
    PiecesText(s);
    if s != "" {
      PiecesKeep(s[..|s| - 1]);
    }
  }

  /**
   * For every line: the words hold exactly its characters other than spaces, in order,
   * none holds a space, and only the last can be empty, which it is exactly if the line
   * is empty or ends in a space.
   */
  lemma SplitKeepsText(s: string)
    ensures var ws := Split(s);
            && Concat(ws) == WithoutSpaces(s)
            && NoSpaces(ws) && NoneEmpty(ws[..|ws| - 1])
            && (ws[|ws| - 1] == "" <==> s == "" || s[|s| - 1] == ' ')
  {
    var ps := Pieces(s);
    var init, last := ps[..|ps| - 1], ps[|ps| - 1];
    PiecesKeep(s);
    NonEmptyKeeps(init);
    assert Split(s)[..|NonEmpty(init)|] == NonEmpty(init);
  }

  /** `r` is `s` without the spaces at its two ends. */
  ghost predicate IsStripped(s: string, r: string) {
    && (r != "" ==> r[0] != ' ' && r[|r| - 1] != ' ')
    && exists i, j :: 0 <= i <= j <= |s| && r == s[i..j] && OnlySpaces(s[..i]) && OnlySpaces(s[j..])
  }

  ghost predicate OnlySpaces(s: string) {
    forall i :: 0 <= i < |s| ==> s[i] == ' '
  }

  /** `last` is the end of the part looked at from the back. */
  method Strip(data: string) returns (r: string)
    ensures IsStripped(data, r)
  {
    var first, last := 0, |data|;
    while first < |data| && data[first] == ' '
      invariant first <= |data| && OnlySpaces(data[..first])
    {
      assert data[..first + 1] == data[..first] + [' '];
      first := first + 1;
    }
    while last > 0 && data[last - 1] == ' '
      invariant 0 <= last <= |data| && OnlySpaces(data[last..])
    {
      assert data[last - 1..] == [' '] + data[last..];
      last := last - 1;
    }
    if first >= last {
      assert forall i :: last <= i < |data| ==> data[i] == data[last..][i - last] == ' ';
      r := "";
      assert r == data[first..first] && OnlySpaces(data[first..]);
    } else {
      r := data[first..last];
    }
  }
}

module Options {
  import opened Words

  datatype OptionType = UnknownOption | NoArgument | Required | Optional

  type OptionMap = map<string, OptionType>
  type Arguments = map<string, string>

  function TypeOf(opts: OptionMap, name: string): OptionType {
    if name in opts then opts[name] else UnknownOption
  }

  /** Where `c` first occurs in `s`; the length of `s` if it does not. */
  function Find(s: string, c: char): (i: nat)
    ensures i <= |s|
    ensures forall j :: 0 <= j < i ==> s[j] != c
    ensures i < |s| ==> s[i] == c
  {
    if s == "" then 0 else if s[0] == c then 0 else 1 + Find(s[1..], c)
  }

  predicate Dashed(s: string) { s != "" && s[0] == '-' }

  /** The next argument is there, and is not an option itself. */
  predicate NextIsValue(args: seq<string>, i: nat) {
    i + 1 < |args| && !Dashed(args[i + 1])
  }

  /** After one option: what is stored, where to go on, and whether an exception was thrown. */
  datatype Taken = Taken(stored: Arguments, next: nat, ok: bool)

  function TakeValue(args: seq<string>, i: nat, m: Arguments, name: string, required: bool): Taken {
    if NextIsValue(args, i) then Taken(m[name := args[i + 1]], i + 2, true)
    else if required then Taken(m, i + 1, false)
    else Taken(m[name := ""], i + 1, true)
  }

  function LongOption(opts: OptionMap, args: seq<string>, i: nat, m: Arguments): Taken
    requires i < |args| && |args[i]| >= 2
  {
    var str := args[i][2..];
    var pos := Find(str, '=');
    if str == "" then Taken(m, i + 1, true)
    else if pos < |str| then
      match TypeOf(opts, str[..pos])
      case UnknownOption => Taken(m, i + 1, false)
      case NoArgument => Taken(m, i + 1, false)
      case _ => Taken(m[str[..pos] := str[pos + 1..]], i + 1, true)
    else
      match TypeOf(opts, str)
      case UnknownOption => Taken(m, i + 1, true)
      case NoArgument => Taken(m[str := ""], i + 1, true)
      case Optional => TakeValue(args, i, m, str, false)
      case Required => TakeValue(args, i, m, str, true)
  }

  /** Letters from `j` on that stand for options without an argument. */
  function Cluster(opts: OptionMap, str: string, j: nat, m: Arguments): Arguments
    decreases |str| - j
  {
    if j >= |str| then m
    else Cluster(opts, str, j + 1, if TypeOf(opts, [str[j]]) == NoArgument then m[[str[j]] := ""] else m)
  }

  function ShortOption(opts: OptionMap, args: seq<string>, i: nat, m: Arguments): Taken
    requires i < |args| && |args[i]| >= 1
  {
    var str := args[i][1..];
    if str == "" then Taken(m, i + 1, true)
    else if Find(str, '=') < |str| then Taken(m, i + 1, false)
    else
      var name := str[..1];
      match TypeOf(opts, name)
      case UnknownOption => Taken(m, i + 1, true)
      case NoArgument => Taken(Cluster(opts, str, 0, m), i + 1, true)
      case Optional => if |str| > 1 then Taken(m[name := str[1..]], i + 1, true) else TakeValue(args, i, m, name, false)
      case Required => if |str| > 1 then Taken(m[name := str[1..]], i + 1, true) else TakeValue(args, i, m, name, true)
  }

  function Take(opts: OptionMap, args: seq<string>, i: nat, m: Arguments): (t: Taken)
    requires i < |args|
    ensures i < t.next
  {
    if !Dashed(args[i]) then Taken(m, i + 1, true)
    else if |args[i]| >= 2 && args[i][1] == '-' then LongOption(opts, args, i, m)
    else ShortOption(opts, args, i, m)
  }

  predicate AllPresent(opts: OptionMap, m: Arguments) {
    forall name <- opts :: opts[name] == Required ==> name in m
  }

  /** What is stored at the end or at the exception, and which of the two it was. */
  function Parsed(opts: OptionMap, args: seq<string>, i: nat, m: Arguments): (Arguments, bool)
    decreases |args| - i
  {
    if i >= |args| then (m, AllPresent(opts, m))
    else
      var t := Take(opts, args, i, m);
      if t.ok then Parsed(opts, args, t.next, t.stored) else (t.stored, false)
  }

  class OptionParser {
    var optMap: OptionMap
    var argsMap: Arguments

    constructor ()
      ensures optMap == map[] && argsMap == map[]
    {
      optMap, argsMap := map[], map[];
    }

    method Add(name: string, kind: OptionType) returns (ok: bool)
      modifies this`optMap
      ensures ok == (kind != UnknownOption)
      ensures optMap == if ok then old(optMap)[name := kind] else old(optMap)
    {
      if kind == UnknownOption {
        return false;
      }
      optMap := optMap[name := kind];
      ok := true;
    }

    method Remove(name: string)
      modifies this`optMap
      ensures optMap == old(optMap) - {name}
    {
      if name in optMap {
        optMap := optMap - {name};
      } else {
        assert optMap - {name} == optMap;
      }
    }

    method ParseCluster(str: string)
      modifies this`argsMap
      ensures argsMap == Cluster(optMap, str, 0, old(argsMap))
    {
      for j := 0 to |str|
        invariant Cluster(optMap, str, j, argsMap) == Cluster(optMap, str, 0, old(argsMap))
      {
        if TypeOf(optMap, [str[j]]) != NoArgument {
          continue;
        }
        argsMap := argsMap[[str[j]] := ""];
      }
    }

    /** The value of an option that stands in an argument of its own. */
    method TakeNext(args: seq<string>, i: nat, name: string, required: bool) returns (next: nat, ok: bool)
      modifies this`argsMap
      ensures Taken(argsMap, next, ok) == TakeValue(args, i, old(argsMap), name, required)
    {
      next, ok := i + 1, true;
      if NextIsValue(args, i) {
        argsMap := argsMap[name := args[i + 1]];
        next := i + 2;
      } else if required {
        ok := false;
      } else {
        argsMap := argsMap[name := ""];
      }
    }

    method ParseLong(args: seq<string>, i: nat) returns (next: nat, ok: bool)
      requires i < |args| && |args[i]| >= 2
      modifies this`argsMap
      ensures Taken(argsMap, next, ok) == LongOption(optMap, args, i, old(argsMap))
    {
      next, ok := i + 1, true;
      var str := args[i][2..];
      if str == "" {
        return;
      }
      var pos := Find(str, '=');
      if pos < |str| {
        match TypeOf(optMap, str[..pos])
        case UnknownOption => ok := false;
        case NoArgument => ok := false;
        case _ => argsMap := argsMap[str[..pos] := str[pos + 1..]];
      } else {
        match TypeOf(optMap, str)
        case UnknownOption =>
        case NoArgument => argsMap := argsMap[str := ""];
        case Optional => next, ok := TakeNext(args, i, str, false);
        case Required => next, ok := TakeNext(args, i, str, true);
      }
    }

    method ParseShort(args: seq<string>, i: nat) returns (next: nat, ok: bool)
      requires i < |args| && |args[i]| >= 1
      modifies this`argsMap
      ensures Taken(argsMap, next, ok) == ShortOption(optMap, args, i, old(argsMap))
    {
      next, ok := i + 1, true;
      var str := args[i][1..];
      if str == "" {
        return;
      }
      if Find(str, '=') < |str| {
        return next, false;
      }
      var name := str[..1];
      var kind := TypeOf(optMap, name);
      if (kind == Optional || kind == Required) && |str| > 1 {
        argsMap := argsMap[name := str[1..]];
      } else if kind == NoArgument {
        ParseCluster(str);
      } else if kind != UnknownOption {
        next, ok := TakeNext(args, i, name, kind == Required);
      }
    }

    method Parse(args: seq<string>) returns (ok: bool)
      modifies this`argsMap
      ensures (argsMap, ok) == Parsed(optMap, args, 0, old(argsMap))
    {
      var i := 0;
      ok := true;
      while i < |args|
        invariant Parsed(optMap, args, i, argsMap) == Parsed(optMap, args, 0, old(argsMap))
        decreases |args| - i
      {
        if !Dashed(args[i]) {
          i := i + 1;
          continue;
        }
        if |args[i]| >= 2 && args[i][1] == '-' {
          i, ok := ParseLong(args, i);
        } else {
          i, ok := ParseShort(args, i);
        }
        if !ok {
          return;
        }
      }
      ok := AllPresent(optMap, argsMap);
    }

    method ParseLine(command: string) returns (ok: bool)
      modifies this`argsMap
      ensures (argsMap, ok) == Parsed(optMap, Split(command), 0, old(argsMap))
    {
      var dataList := SplitLine(command);
      ok := Parse(dataList);
    }
  }

  // ------------------------------------------------------------------------
  // What is stored
  // ------------------------------------------------------------------------

  /** Options without an argument are stored with an empty one. */
  ghost predicate Plain(opts: OptionMap, m: Arguments) {
    forall name <- m :: TypeOf(opts, name) == NoArgument ==> m[name] == ""
  }

  lemma {:induction false} ClusterStores(opts: OptionMap, str: string, j: nat, m: Arguments)
    ensures m.Keys <= Cluster(opts, str, j, m).Keys <= m.Keys + opts.Keys
    ensures Plain(opts, m) ==> Plain(opts, Cluster(opts, str, j, m))
    decreases |str| - j
  {
    if j < |str| {
      ClusterStores(opts, str, j + 1, if TypeOf(opts, [str[j]]) == NoArgument then m[[str[j]] := ""] else m);
    }
  }

  lemma TakeStores(opts: OptionMap, args: seq<string>, i: nat, m: Arguments)
    requires i < |args|
    ensures var t := Take(opts, args, i, m);
            && m.Keys <= t.stored.Keys <= m.Keys + opts.Keys
            && (Plain(opts, m) ==> Plain(opts, t.stored))
  {
    if Dashed(args[i]) {
      if |args[i]| >= 2 && args[i][1] == '-' {
        LongStores(opts, args, i, m);
      } else {
        ShortStores(opts, args, i, m);
      }
    }
  }

  lemma LongStores(opts: OptionMap, args: seq<string>, i: nat, m: Arguments)
    requires i < |args| && Dashed(args[i]) && |args[i]| >= 2 && args[i][1] == '-'
    ensures var t := LongOption(opts, args, i, m);
            && m.Keys <= t.stored.Keys <= m.Keys + opts.Keys
            && (Plain(opts, m) ==> Plain(opts, t.stored))
  {
  }

  lemma ShortStores(opts: OptionMap, args: seq<string>, i: nat, m: Arguments)
    requires i < |args| && Dashed(args[i]) && !(|args[i]| >= 2 && args[i][1] == '-')
    ensures var t := ShortOption(opts, args, i, m);
            && m.Keys <= t.stored.Keys <= m.Keys + opts.Keys
            && (Plain(opts, m) ==> Plain(opts, t.stored))
  {
    if |args[i]| >= 2 {
      ClusterStores(opts, args[i][1..], 0, m);
    }
  }

  /**
   * Whatever the arguments: only declared options are ever stored, what was stored
   * stays, an option that takes no argument never gets one, and if no exception was
   * thrown every required option is there.
   */
  lemma {:induction false} ParsedStores(opts: OptionMap, args: seq<string>, i: nat, m: Arguments)
    ensures var (m', ok) := Parsed(opts, args, i, m);
            && m.Keys <= m'.Keys <= m.Keys + opts.Keys
            && (Plain(opts, m) ==> Plain(opts, m'))
            && (ok ==> AllPresent(opts, m'))
    decreases |args| - i
  {
    if i < |args| {
      TakeStores(opts, args, i, m);
      var t := Take(opts, args, i, m);
      if t.ok {
        ParsedStores(opts, args, t.next, t.stored);
      }
    }
  }

  // ------------------------------------------------------------------------
  // Printing and parsing
  // ------------------------------------------------------------------------

  function Token(name: string, value: string): string { "--" + name + "=" + value }

  /** `names` lists the options in the order they are printed. */
  function Tokens(kv: Arguments, names: seq<string>): seq<string>
    requires forall i :: 0 <= i < |names| ==> names[i] in kv
  {
    seq(|names|, i requires 0 <= i < |names| => Token(names[i], kv[names[i]]))
  }

  predicate Printable(opts: OptionMap, name: string) {
    TakesValue(opts, name) && '=' !in name
  }

  lemma {:induction false} FindAfter(name: string, value: string)
    requires '=' !in name
    ensures Find(name + "=" + value, '=') == |name|
  {
    var str := name + "=" + value;
    if name != "" {
      assert str[1..] == name[1..] + "=" + value;
      FindAfter(name[1..], value);
    }
  }

  lemma TakeToken(opts: OptionMap, args: seq<string>, i: nat, m: Arguments, name: string, value: string)
    requires i < |args| && args[i] == Token(name, value) && Printable(opts, name)
    ensures Take(opts, args, i, m) == Taken(m[name := value], i + 1, true)
  {
    var str := args[i][2..];
    assert str == name + "=" + value;
    FindAfter(name, value);
    assert str[..|name|] == name && str[|name| + 1..] == value;
  }

  /** What `names` from `i` on store on top of `m`. */
  function Stored(kv: Arguments, names: seq<string>, i: nat, m: Arguments): Arguments
    requires forall j :: 0 <= j < |names| ==> names[j] in kv
    decreases |names| - i
  {
    if i >= |names| then m else Stored(kv, names, i + 1, m[names[i] := kv[names[i]]])
  }

  lemma {:induction false} ParseTokens(opts: OptionMap, kv: Arguments, names: seq<string>, i: nat, m: Arguments)
    requires forall j :: 0 <= j < |names| ==> names[j] in kv && Printable(opts, names[j])
    ensures Parsed(opts, Tokens(kv, names), i, m) ==
              (Stored(kv, names, i, m), AllPresent(opts, Stored(kv, names, i, m)))
    decreases |names| - i
  {
    if i < |names| {
      var args := Tokens(kv, names);
      TakeToken(opts, args, i, m, names[i], kv[names[i]]);
      ParseTokens(opts, kv, names, i + 1, m[names[i] := kv[names[i]]]);
    }
  }

  lemma {:induction false} StoredAll(kv: Arguments, names: seq<string>, i: nat, m: Arguments)
    requires i <= |names| && forall j :: 0 <= j < |names| ==> names[j] in kv
    requires forall name <- m :: name in kv && m[name] == kv[name]
    requires forall name <- kv :: name in m || name in names[i..]
    ensures Stored(kv, names, i, m) == kv
    decreases |names| - i
  {
    if i < |names| {
      assert names[i..] == [names[i]] + names[i + 1..];
      StoredAll(kv, names, i + 1, m[names[i] := kv[names[i]]]);
    }
  }

  /** `names` lists exactly the options that `kv` has values for, in any order. */
  ghost predicate Lists(names: seq<string>, kv: Arguments) {
    && (forall j :: 0 <= j < |names| ==> names[j] in kv)
    && (forall name <- kv :: name in names)
  }

  /**
   * Options printed as `--name=value`, in any order, are read back exactly; the parse
   * succeeds if and only if the required ones are among them.
   */
  lemma ParsePrinted(opts: OptionMap, kv: Arguments, names: seq<string>)
    requires Lists(names, kv) && forall name <- kv :: Printable(opts, name)
    ensures Parsed(opts, Tokens(kv, names), 0, map[]) == (kv, AllPresent(opts, kv))
  {
    ParseTokens(opts, kv, names, 0, map[]);
    assert names[0..] == names;
    StoredAll(kv, names, 0, map[]);
  }

  /** The same through one line of text, if neither names nor values hold spaces. */
  lemma ParsePrintedLine(opts: OptionMap, kv: Arguments, names: seq<string>)
    requires Lists(names, kv) && forall name <- kv :: Printable(opts, name) && NoSpace(name) && NoSpace(kv[name])
    ensures var line := if names == [] then "" else Join(Tokens(kv, names));
            Parsed(opts, Split(line), 0, map[]) == (kv, AllPresent(opts, kv))
  {
    var tokens := Tokens(kv, names);
    if names == [] {
      assert Split("") == [""];
      assert kv == map[];
    } else {
      SplitJoin(tokens);
      ParsePrinted(opts, kv, names);
    }
  }

  // ------------------------------------------------------------------------
  // The language of the command line
  // ------------------------------------------------------------------------

  /** One thing said on a command line. */
  datatype Item =
    | Ignored(arg: string)
    | Given(name: string, value: string)
    | GivenNext(name: string, value: string)
    | Alone(name: string)
    | ShortGiven(letter: char, value: string)
    | ShortNext(letter: char, value: string)
    | ShortAlone(letter: char)
    | Letters(letters: string)

  /** The arguments it is said in. */
  function Spelled(item: Item): (args: seq<string>)
    ensures 1 <= |args| <= 2
  {
    match item
    case Ignored(arg) => [arg]
    case Given(name, value) => [Token(name, value)]
    case GivenNext(name, value) => ["--" + name, value]
    case Alone(name) => ["--" + name]
    case ShortGiven(letter, value) => ["-" + ([letter] + value)]
    case ShortNext(letter, value) => ["-" + [letter], value]
    case ShortAlone(letter) => ["-" + [letter]]
    case Letters(letters) => ["-" + letters]
  }

  predicate TakesValue(opts: OptionMap, name: string) {
    TypeOf(opts, name) == Required || TypeOf(opts, name) == Optional
  }

  predicate LongName(name: string) { name != "" && '=' !in name }

  predicate ShortName(str: string) { str != "" && str[0] != '-' && '=' !in str }

  /** What is passed over: plain words, single and double dashes, and options that are not declared. */
  ghost predicate Passed(opts: OptionMap, arg: string) {
    || !Dashed(arg) || arg == "-" || arg == "--"
    || (exists name :: LongName(name) && arg == "--" + name && TypeOf(opts, name) == UnknownOption)
    || (exists str :: ShortName(str) && arg == "-" + str && TypeOf(opts, [str[0]]) == UnknownOption)
  }

  /** The item can be said where its arguments end before `k`. */
  ghost predicate Fits(opts: OptionMap, item: Item, args: seq<string>, k: nat) {
    var valueNext := k < |args| && !Dashed(args[k]);
    match item
    case Ignored(arg) => Passed(opts, arg)
    case Given(name, _) => TakesValue(opts, name) && '=' !in name
    case GivenNext(name, value) => TakesValue(opts, name) && LongName(name) && !Dashed(value)
    case Alone(name) =>
      LongName(name) && (TypeOf(opts, name) == NoArgument || (TypeOf(opts, name) == Optional && !valueNext))
    case ShortGiven(letter, value) => TakesValue(opts, [letter]) && ShortName([letter] + value) && value != ""
    case ShortNext(letter, value) => TakesValue(opts, [letter]) && ShortName([letter]) && !Dashed(value)
    case ShortAlone(letter) => TypeOf(opts, [letter]) == Optional && ShortName([letter]) && !valueNext
    case Letters(letters) => ShortName(letters) && TypeOf(opts, [letters[0]]) == NoArgument
  }

  /** What it stores. */
  function Means(opts: OptionMap, item: Item): Arguments {
    match item
    case Ignored(_) => map[]
    case Given(name, value) => map[name := value]
    case GivenNext(name, value) => map[name := value]
    case Alone(name) => map[name := ""]
    case ShortGiven(letter, value) => map[[letter] := value]
    case ShortNext(letter, value) => map[[letter] := value]
    case ShortAlone(letter) => map[[letter] := ""]
    case Letters(letters) => map name | name in Flags(opts, letters) :: ""
  }

  function Flags(opts: OptionMap, letters: string): set<string> {
    set letter <- letters | TypeOf(opts, [letter]) == NoArgument :: [letter]
  }

  ghost predicate SaidAt(opts: OptionMap, args: seq<string>, i: nat, item: Item) {
    var k := i + |Spelled(item)|;
    k <= |args| && args[i..k] == Spelled(item) && Fits(opts, item, args, k)
  }

  /** The arguments from `i` to `j` say these items. */
  ghost predicate Say(opts: OptionMap, args: seq<string>, items: seq<Item>, i: nat, j: nat)
    decreases |items|
  {
    if items == [] then i == j
    else
      SaidAt(opts, args, i, items[0]) && Say(opts, args, items[1..], i + |Spelled(items[0])|, j)
  }

  /** What items store on top of `m`: the last word on an option counts. */
  function Meaning(opts: OptionMap, items: seq<Item>, m: Arguments): Arguments
    decreases |items|
  {
    if items == [] then m else Meaning(opts, items[1..], m + Means(opts, items[0]))
  }

  /** What throws: a value for an option that is unknown or takes none, or no value where one is required. */
  ghost predicate Faulty(opts: OptionMap, args: seq<string>, i: nat) {
    && i < |args|
    && (UnwantedValue(opts, args[i]) || Malformed(args[i])
        || (ValueMissing(opts, args[i]) && !(i + 1 < |args| && !Dashed(args[i + 1]))))
  }

  ghost predicate UnwantedValue(opts: OptionMap, arg: string) {
    exists name, value :: arg == Token(name, value) && '=' !in name && !TakesValue(opts, name)
  }

  ghost predicate Malformed(arg: string) {
    exists str :: arg == "-" + str && '=' in str && !Dashed(str)
  }

  ghost predicate ValueMissing(opts: OptionMap, arg: string) {
    || (exists name :: arg == "--" + name && LongName(name) && TypeOf(opts, name) == Required)
    || (exists c :: arg == "-" + [c] && ShortName([c]) && TypeOf(opts, [c]) == Required)
  }

  lemma ClusterIsFlags(opts: OptionMap, str: string, m: Arguments)
    ensures Cluster(opts, str, 0, m) == m + map name | name in Flags(opts, str) :: ""
  {
    forall name
      ensures var m' := Cluster(opts, str, 0, m);
              && (name in m' <==> name in m || name in Flags(opts, str))
              && (name in m' ==> m'[name] == if name in Flags(opts, str) then "" else m[name])
    {
      ClusterIsLetters(opts, str, 0, m, name);
      FlagsAre(opts, str, name);
    }
  }

  lemma FlagsAre(opts: OptionMap, str: string, name: string)
    ensures name in Flags(opts, str) <==>
            TypeOf(opts, name) == NoArgument && exists k :: 0 <= k < |str| && name == [str[k]]
  {
    if name in Flags(opts, str) {
      var letter :| letter in str && name == [letter];
      var k :| 0 <= k < |str| && str[k] == letter;
    }
  }

  lemma IgnoredTaken(opts: OptionMap, args: seq<string>, i: nat, m: Arguments)
    requires i < |args| && Passed(opts, args[i])
    ensures Take(opts, args, i, m) == Taken(m, i + 1, true)
  {
    var arg := args[i];
    if name :| LongName(name) && arg == "--" + name && TypeOf(opts, name) == UnknownOption {
      assert arg[2..] == name;
    } else if str :| ShortName(str) && arg == "-" + str && TypeOf(opts, [str[0]]) == UnknownOption {
      assert arg[1..] == str && str[..1] == [str[0]];
    }
  }

  lemma LongTaken(opts: OptionMap, args: seq<string>, i: nat, m: Arguments, name: string)
    requires i < |args| && args[i] == "--" + name && LongName(name)
    ensures TypeOf(opts, name) == NoArgument ==> Take(opts, args, i, m) == Taken(m[name := ""], i + 1, true)
    ensures TakesValue(opts, name) ==>
              Take(opts, args, i, m) == TakeValue(args, i, m, name, TypeOf(opts, name) == Required)
  {
    assert args[i][2..] == name;
  }

  lemma ShortTaken(opts: OptionMap, args: seq<string>, i: nat, m: Arguments, str: string)
    requires i < |args| && args[i] == "-" + str && ShortName(str)
    ensures var (t, name) := (Take(opts, args, i, m), [str[0]]);
            && (TypeOf(opts, name) == NoArgument ==>
                  t == Taken(m + map name | name in Flags(opts, str) :: "", i + 1, true))
            && (TakesValue(opts, name) ==>
                  t == if |str| > 1 then Taken(m[name := str[1..]], i + 1, true)
                       else TakeValue(args, i, m, name, TypeOf(opts, name) == Required))
  {
    assert args[i][1..] == str && str[..1] == [str[0]] && str[0..] == str;
    ClusterIsFlags(opts, str, m);
  }

  lemma ItemTaken(opts: OptionMap, args: seq<string>, i: nat, item: Item, m: Arguments)
    requires SaidAt(opts, args, i, item)
    ensures Take(opts, args, i, m) == Taken(m + Means(opts, item), i + |Spelled(item)|, true)
  {
    var k := i + |Spelled(item)|;
    assert args[i] == args[i..k][0] && (k == i + 2 ==> args[i + 1] == args[i..k][1]);
    match item
    case Ignored(arg) => IgnoredTaken(opts, args, i, m);
    case Given(name, value) => TakeToken(opts, args, i, m, name, value);
    case GivenNext(name, value) => LongTaken(opts, args, i, m, name);
    case Alone(name) => LongTaken(opts, args, i, m, name);
    case ShortGiven(letter, value) => ShortTaken(opts, args, i, m, [letter] + value);
    case ShortNext(letter, value) => ShortTaken(opts, args, i, m, [letter]);
    case ShortAlone(letter) => ShortTaken(opts, args, i, m, [letter]);
    case Letters(letters) => ShortTaken(opts, args, i, m, letters);
  }

  lemma FaultyTaken(opts: OptionMap, args: seq<string>, i: nat, m: Arguments)
    requires Faulty(opts, args, i)
    ensures Take(opts, args, i, m) == Taken(m, i + 1, false)
  {
    if UnwantedValue(opts, args[i]) {
      UnwantedTaken(opts, args, i, m);
    } else if Malformed(args[i]) {
      var str :| args[i] == "-" + str && '=' in str && !Dashed(str);
      assert args[i][1..] == str;
    } else {
      MissingTaken(opts, args, i, m);
    }
  }

  lemma UnwantedTaken(opts: OptionMap, args: seq<string>, i: nat, m: Arguments)
    requires i < |args| && UnwantedValue(opts, args[i])
    ensures Take(opts, args, i, m) == Taken(m, i + 1, false)
  {
    var name, value :| args[i] == Token(name, value) && '=' !in name && !TakesValue(opts, name);
    assert args[i][2..] == name + "=" + value;
    FindAfter(name, value);
    assert args[i][2..][..|name|] == name;
  }

  lemma MissingTaken(opts: OptionMap, args: seq<string>, i: nat, m: Arguments)
    requires i < |args| && ValueMissing(opts, args[i]) && !NextIsValue(args, i)
    ensures Take(opts, args, i, m) == Taken(m, i + 1, false)
  {
    if name :| args[i] == "--" + name && LongName(name) && TypeOf(opts, name) == Required {
      LongTaken(opts, args, i, m, name);
    } else if c :| args[i] == "-" + [c] && ShortName([c]) && TypeOf(opts, [c]) == Required {
      ShortTaken(opts, args, i, m, [c]);
    }
  }

  lemma ItemParsed(opts: OptionMap, args: seq<string>, i: nat, item: Item, m: Arguments)
    requires SaidAt(opts, args, i, item)
    ensures Parsed(opts, args, i, m) == Parsed(opts, args, i + |Spelled(item)|, m + Means(opts, item))
  {
    ItemTaken(opts, args, i, item, m);
  }

  lemma FaultyParsed(opts: OptionMap, args: seq<string>, i: nat, m: Arguments)
    requires Faulty(opts, args, i)
    ensures Parsed(opts, args, i, m) == (m, false)
  {
    FaultyTaken(opts, args, i, m);
  }

  /** What no item changes, all of them together do not change. */
  lemma {:induction false} PassedOver(opts: OptionMap, args: seq<string>, items: seq<Item>, i: nat, j: nat,
                                      m: Arguments, result: (nat, Arguments) -> (Arguments, bool))
    requires Say(opts, args, items, i, j)
    requires forall i: nat, item, m :: SaidAt(opts, args, i, item) ==>
               result(i, m) == result(i + |Spelled(item)|, m + Means(opts, item))
    ensures result(i, m) == result(j, Meaning(opts, items, m))
    decreases |items|
  {
    if items != [] {
      assert SaidAt(opts, args, i, items[0]);
      PassedOver(opts, args, items[1..], i + |Spelled(items[0])|, j, m + Means(opts, items[0]), result);
    }
  }

  /**
   * Arguments that say these items store what the items mean, and then the parse
   * succeeds exactly if no required option is missing; at a fault it stops, and what
   * was said before the fault remains stored.
   */
  lemma ItemsParsed(opts: OptionMap, args: seq<string>, items: seq<Item>, j: nat, m: Arguments)
    requires Say(opts, args, items, 0, j)
    ensures var m' := Meaning(opts, items, m);
            && (j == |args| ==> Parsed(opts, args, 0, m) == (m', AllPresent(opts, m')))
            && (Faulty(opts, args, j) ==> Parsed(opts, args, 0, m) == (m', false))
  {
    forall i: nat, item, m | SaidAt(opts, args, i, item)
      ensures Parsed(opts, args, i, m) == Parsed(opts, args, i + |Spelled(item)|, m + Means(opts, item))
    {
      ItemParsed(opts, args, i, item, m);
    }
    PassedOver(opts, args, items, 0, j, m, (i: nat, m) => Parsed(opts, args, i, m));
    if Faulty(opts, args, j) {
      FaultyParsed(opts, args, j, Meaning(opts, items, m));
    }
  }

  /** The arguments from `i` on say items up to their end or up to a fault. */
  ghost predicate Readable(opts: OptionMap, args: seq<string>, i: nat) {
    exists items, j :: Reading(opts, args, items, i, j)
  }

  ghost predicate Reading(opts: OptionMap, args: seq<string>, items: seq<Item>, i: nat, j: nat) {
    Say(opts, args, items, i, j) && (j == |args| || Faulty(opts, args, j))
  }

  lemma OneMoreSaid(opts: OptionMap, args: seq<string>, i: nat, item: Item, items: seq<Item>, j: nat)
    requires SaidAt(opts, args, i, item) && Reading(opts, args, items, i + |Spelled(item)|, j)
    ensures Reading(opts, args, [item] + items, i, j)
  {
    assert ([item] + items)[1..] == items;
  }

  lemma OneMoreRead(opts: OptionMap, args: seq<string>, i: nat, item: Item)
    requires SaidAt(opts, args, i, item) && Readable(opts, args, i + |Spelled(item)|)
    ensures Readable(opts, args, i)
  {
    var items, j :| Reading(opts, args, items, i + |Spelled(item)|, j);
    OneMoreSaid(opts, args, i, item, items, j);
  }

  /** Which item starts at `i`, if there is no fault. */
  lemma ItemAt(opts: OptionMap, args: seq<string>, i: nat) returns (item: Item)
    requires i < |args| && !Faulty(opts, args, i)
    ensures SaidAt(opts, args, i, item)
  {
    var arg := args[i];
    if |arg| > 2 && arg[0] == arg[1] == '-' {
      assert arg == "--" + arg[2..];
      item := LongAt(opts, args, i, arg[2..]);
    } else if |arg| > 1 && arg[0] == '-' && arg[1] != '-' {
      assert arg == "-" + arg[1..];
      item := ShortAt(opts, args, i, arg[1..]);
    } else {
      item := Ignored(arg);
    }
  }

  lemma LongAt(opts: OptionMap, args: seq<string>, i: nat, str: string) returns (item: Item)
    requires i < |args| && !Faulty(opts, args, i) && args[i] == "--" + str && str != ""
    ensures SaidAt(opts, args, i, item)
  {
    if '=' in str {
      var pos := Find(str, '=');
      var name, value := str[..pos], str[pos + 1..];
      assert str == name + "=" + value;
      assert args[i] == Token(name, value);
      item := Given(name, value);
    } else {
      match TypeOf(opts, str)
      case UnknownOption => item := Ignored(args[i]);
      case NoArgument => item := Alone(str);
      case _ =>
        item := if NextIsValue(args, i) then GivenNext(str, args[i + 1]) else Alone(str);
    }
  }

  lemma ShortAt(opts: OptionMap, args: seq<string>, i: nat, str: string) returns (item: Item)
    requires i < |args| && !Faulty(opts, args, i) && args[i] == "-" + str && str != "" && str[0] != '-'
    ensures SaidAt(opts, args, i, item)
  {
    var arg, c := args[i], str[0];
    assert str == [c] + str[1..];
    assert '=' in str ==> Malformed(arg);
    match TypeOf(opts, [c])
    case UnknownOption => item := Ignored(arg);
    case NoArgument => item := Letters(str);
    case _ =>
      assert |str| == 1 ==> str == [c];
      item := if |str| > 1 then ShortGiven(c, str[1..])
              else if NextIsValue(args, i) then ShortNext(c, args[i + 1]) else ShortAlone(c);
  }

  /** The reading is over at `i`, or goes on at `k`. */
  lemma ReadOn(opts: OptionMap, args: seq<string>, i: nat) returns (k: nat)
    requires i <= |args|
    ensures i <= k <= |args| && (k == i || Readable(opts, args, k) ==> Readable(opts, args, i))
  {
    k := i;
    if i == |args| || Faulty(opts, args, i) {
      assert Reading(opts, args, [], i, i);
    } else {
      var item := ItemAt(opts, args, i);
      k := i + |Spelled(item)|;
      if Readable(opts, args, k) {
        OneMoreRead(opts, args, i, item);
      }
    }
  }

  /** Every command line says something: items up to its end, or up to a fault. */
  lemma {:induction false} EveryLineReadable(opts: OptionMap, args: seq<string>, i: nat)
    requires i <= |args|
    ensures Readable(opts, args, i)
    decreases |args| - i
  {
    var k := ReadOn(opts, args, i);
    if k > i {
      EveryLineReadable(opts, args, k);
    }
  }

  // ------------------------------------------------------------------------
  // Other spellings
  // ------------------------------------------------------------------------

  lemma OneItem(opts: OptionMap, item: Item, m: Arguments)
    requires Fits(opts, item, Spelled(item), |Spelled(item)|)
    ensures var m' := m + Means(opts, item); Parsed(opts, Spelled(item), 0, m) == (m', AllPresent(opts, m'))
  {
    assert Spelled(item)[0..|Spelled(item)|] == Spelled(item);
    ItemTaken(opts, Spelled(item), 0, item, m);
  }

  /**
   * A value that is not empty, does not begin with a dash and holds no '=' can be given
   * to a one-letter option in four ways, which all come to the same.
   */
  lemma SpellingsAgree(opts: OptionMap, c: char, value: string, m: Arguments)
    requires Printable(opts, [c]) && c != '-'
    requires value != "" && !Dashed(value) && '=' !in value
    ensures var m' := m[[c] := value];
            && Parsed(opts, [Token([c], value)], 0, m) == (m', AllPresent(opts, m'))
            && Parsed(opts, ["--" + [c], value], 0, m) == (m', AllPresent(opts, m'))
            && Parsed(opts, ["-" + [c], value], 0, m) == (m', AllPresent(opts, m'))
            && Parsed(opts, ["-" + ([c] + value)], 0, m) == (m', AllPresent(opts, m'))
  {
    OneItem(opts, Given([c], value), m);
    OneItem(opts, GivenNext([c], value), m);
    OneItem(opts, ShortNext(c, value), m);
    OneItem(opts, ShortGiven(c, value), m);
  }

  /**
   * Letters written together: each that stands for an option without an argument is stored, the others
   * are passed over.
   */
  lemma {:induction false} ClusterIsLetters(opts: OptionMap, str: string, j: nat, m: Arguments, name: string)
    ensures var m' := Cluster(opts, str, j, m);
            var given := TypeOf(opts, name) == NoArgument && exists k :: j <= k < |str| && name == [str[k]];
            && (name in m' <==> name in m || given)
            && (name in m' ==> m'[name] == if given then "" else m[name])
    decreases |str| - j
  {
    if j < |str| {
      ClusterIsLetters(opts, str, j + 1, if TypeOf(opts, [str[j]]) == NoArgument then m[[str[j]] := ""] else m, name);
    }
  }
}
