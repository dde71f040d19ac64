/** The code generator: which functions it writes into a C file, and which calls into each function. Random choices
    are arbitrary. */
module Generator {
  import opened Folds
  import opened Naming

  datatype CType = IntType | LongType | FloatType | DoubleType | StringType

  const VAR_TYPES := [IntType, LongType, FloatType, DoubleType, StringType]

  datatype Signature = Signature(result: CType, args: seq<CType>)

  datatype Literal = IntLiteral(value: int) | RealLiteral(fraction: real) | Hello

  /** A statement that stores the result of a call in a variable. */
  datatype Call = Call(variable: CType, callee: Name, args: seq<Literal>)

  /** A function body: possibly a call in its ten-fold loop, then possibly one to the next function. */
  datatype Function = Function(signature: Signature, looped: Option<Call>, next: Option<Call>)

  /** What the generator has made before: the utility files and the extern functions, where asked for. */
  datatype Environment = Environment(utilities: Option<seq<seq<Signature>>>, externs: Option<seq<Signature>>)

  /** The file being written: a utility or a module, its number, and the functions it is to define. */
  datatype Scope = Scope(utility: bool, id: nat, signatures: seq<Signature>, env: Environment)

  datatype CFile = CFile(scope: Scope, functions: seq<Function>, entry: seq<Call>, externCall: Option<Call>)

  datatype Outcome = Written(file: CFile) | ZeroDivision | EmptyRange

  // ---------------------------------------------------------------- what a file must look like

  predicate Fits(l: Literal, t: CType) {
    match l
    case IntLiteral(n) => 0 <= n <= 16000 && (t.IntType? || t.LongType?)
    case RealLiteral(x) => 0.0 <= x < 1.0 && (t.FloatType? || t.DoubleType?)
    case Hello => t.StringType?
  }

  /** The call passes the declared number of arguments, each fitting its type, and keeps the declared result. */
  predicate Conforms(c: Call, s: Signature) {
    c.variable == s.result && |c.args| == |s.args| && forall k :: 0 <= k < |c.args| ==> Fits(c.args[k], s.args[k])
  }

  /** What is declared under a name where a file is compiled: its own functions, those of the utility headers, and
      its own and the previous module's extern function. */
  function Visible(s: Scope, name: Name): Option<Signature> {
    match name
    case Fun(utility, file, index) =>
      if utility == s.utility && file == s.id then At(s.signatures, index)
      else if utility && !s.utility && s.env.utilities.Some? && file < |s.env.utilities.value|
      then At(s.env.utilities.value[file], index)
      else None
    case Extern(file) =>
      if !s.utility && s.env.externs.Some? && (file == s.id || file + 1 == s.id)
      then At(s.env.externs.value, file) else None
  }

  function At(signatures: seq<Signature>, i: nat): Option<Signature> {
    if i < |signatures| then Some(signatures[i]) else None
  }

  predicate GoodCall(s: Scope, c: Call) {
    Visible(s, c.callee).Some? && Conforms(c, Visible(s, c.callee).value)
  }

  /** Every call that is written in a file. */
  predicate WrittenIn(f: CFile, c: Call) {
    || (exists i :: 0 <= i < |f.functions| && (f.functions[i].looped == Some(c) || f.functions[i].next == Some(c)))
    || c in f.entry || f.externCall == Some(c)
  }

  /** Python's remainder, which takes the sign of the divisor. */
  function PyMod(a: int, d: int): int
    requires d != 0
  {
    if d > 0 then a % d else -(-a % -d)
  }

  /** Whether function i of n calls nobody further: it is the last, or the last at the maximum call depth. */
  predicate Stops(i: nat, n: nat, d: int) {
    i == n - 1 || (d != 0 && PyMod(i, d) == d - 1)
  }

  /** The functions that the entry function calls, among the first n. */
  function Starts(n: nat, d: int): seq<nat> {
    if n == 0 then []
    else Starts(n - 1, d) + if d != 0 && PyMod(n - 1, d) == 0 then [n - 1] else []
  }

  /** Function i calls function i + 1 unless it stops, and, in a module, some utility function if there are any. */
  predicate GoodFunction(s: Scope, d: int, i: nat, g: Function)
    requires i < |s.signatures|
  {
    && g.signature == s.signatures[i]
    && (g.next.None? <==> Stops(i, |s.signatures|, d))
    && (g.next.Some? ==> GoodCall(s, g.next.value) && g.next.value.callee == Fun(s.utility, s.id, i + 1))
    && (g.looped.Some? <==> !s.utility && s.env.utilities.Some?)
    && (g.looped.Some? ==> GoodCall(s, g.looped.value) && Utility(g.looped.value.callee))
  }

  /** The entry function calls the functions with the given indices. */
  predicate GoodEntry(s: Scope, starts: seq<nat>, entry: seq<Call>) {
    && |entry| == |starts|
    && forall k :: 0 <= k < |entry| ==> GoodCall(s, entry[k]) && entry[k].callee == Fun(false, s.id, starts[k])
  }

  predicate GoodExternCall(s: Scope, c: Option<Call>) {
    && (c.Some? <==> !s.utility && s.env.externs.Some? && s.id > 0)
    && (c.Some? ==> GoodCall(s, c.value) && c.value.callee == Extern(s.id - 1))
  }

  predicate Generated(f: CFile, d: int) {
    && |f.functions| == |f.scope.signatures|
    && (forall i :: 0 <= i < |f.functions| ==> GoodFunction(f.scope, d, i, f.functions[i]))
    && GoodEntry(f.scope, if f.scope.utility then [] else Starts(|f.functions|, d), f.entry)
    && GoodExternCall(f.scope, f.externCall)
  }

  /** Every call that the generator writes names a declared function, and only one has that name in C; the arguments
      are those declared. */
  lemma CallsAreWellFormed(f: CFile, d: int, c: Call, nameLength: nat, other: Name)
    requires Generated(f, d) && WrittenIn(f, c)
    ensures GoodCall(f.scope, c)
    ensures Visible(f.scope, other).Some? && Text(other, nameLength) == Text(c.callee, nameLength) ==> other == c.callee
  {
    if Text(other, nameLength) == Text(c.callee, nameLength) {
      NamesAreDistinct(other, c.callee, nameLength);
    }
  }

  // ---------------------------------------------------------------- writing one

  method RandomInt(lo: int, hi: int) returns (r: int)
    requires lo <= hi
    ensures lo <= r <= hi
  {
    r :| lo <= r <= hi;
  }

  method RandomFraction() returns (r: real)
    ensures 0.0 <= r < 1.0
  {
    var n := RandomInt(0, 0x1f_ffff_ffff_ffff);
    r := n as real / 9007199254740992.0;
  }

  /** create_function_list: some result and up to five arguments each. */
  method CreateFunctionList(numFunctions: nat) returns (functions: seq<Signature>)
    ensures |functions| == numFunctions && forall i :: 0 <= i < numFunctions ==> |functions[i].args| <= 5
  {
    functions := [];
    for i := 0 to numFunctions
      invariant |functions| == i && forall k :: 0 <= k < i ==> |functions[k].args| <= 5
    {
      var result := RandomInt(0, |VAR_TYPES| - 1);
      var numArgs := RandomInt(0, 5);
      var args := [];
      for a := 0 to numArgs
        invariant |args| == a
      {
        var t := RandomInt(0, |VAR_TYPES| - 1);
        args := args + [VAR_TYPES[t]];
      }
      functions := functions + [Signature(VAR_TYPES[result], args)];
    }
  }

  method WriteFunctionCall(callee: Name, function_: Signature) returns (c: Call)
    ensures Conforms(c, function_) && c.callee == callee
  {
    var args := [];
    for k := 0 to |function_.args|
      invariant |args| == k && forall j :: 0 <= j < k ==> Fits(args[j], function_.args[j])
    {
      var t := function_.args[k];
      if t == IntType || t == LongType {
        var n := RandomInt(0, 16000);
        args := args + [IntLiteral(n)];
      } else if t == FloatType || t == DoubleType {
        var x := RandomFraction();
        args := args + [RealLiteral(x)];
      } else {
        args := args + [Hello];
      }
    }
    c := Call(function_.result, callee, args);
  }

  /** The call that a module function makes in its loop; None when the utility file drawn has no functions. */
  method WriteUtilityCall(utilities: seq<seq<Signature>>) returns (c: Option<Call>)
    requires utilities != []
    ensures c == None ==> [] in utilities
    ensures c.Some? ==>
      && var callee := c.value.callee;
      && callee.Fun? && callee.utility && callee.file < |utilities| && callee.index < |utilities[callee.file]|
      && Conforms(c.value, utilities[callee.file][callee.index])
  {
    var file := RandomInt(0, |utilities| - 1);
    if |utilities[file]| == 0 { return None; }
    var index := RandomInt(0, |utilities[file]| - 1);
    var call := WriteFunctionCall(Fun(true, file, index), utilities[file][index]);
    return Some(call);
  }

  /** Function i of a file. The test of the remainder raises for a call depth of zero, unless i is last. */
  method WriteFunction(s: Scope, i: nat, d: int) returns (g: Function, failure: Option<Outcome>)
    requires i < |s.signatures| && ValidEnvironment(s)
    ensures failure == None || failure == Some(ZeroDivision) || failure == Some(EmptyRange)
    ensures failure == Some(ZeroDivision) ==> d == 0 && i != |s.signatures| - 1
    ensures failure == Some(EmptyRange) ==> !s.utility && s.env.utilities.Some? && [] in s.env.utilities.value
    ensures failure == None ==> GoodFunction(s, d, i, g) && (d == 0 ==> i == |s.signatures| - 1)
  {
    g, failure := Function(s.signatures[i], None, None), None;
    if !s.utility && s.env.utilities.Some? {
      var looped := WriteUtilityCall(s.env.utilities.value);
      if looped.None? { return g, Some(EmptyRange); }
      g := g.(looped := looped);
    }
    if i != |s.signatures| - 1 {
      if d == 0 { return g, Some(ZeroDivision); }
      if PyMod(i, d) != d - 1 {
        var call := WriteFunctionCall(Fun(s.utility, s.id, i + 1), s.signatures[i + 1]);
        g := g.(next := Some(call));
      }
    }
  }

  /** What the caller provides for a module: at least one utility file if any, and an extern function for each
      module. */
  predicate ValidEnvironment(s: Scope) {
    !s.utility ==>
      && (s.env.utilities.Some? ==> s.env.utilities.value != [])
      && (s.env.externs.Some? ==> s.id < |s.env.externs.value|)
  }

  /** The entry function of a module. */
  method WriteEntry(s: Scope, d: int) returns (entry: seq<Call>, externCall: Option<Call>)
    requires !s.utility && ValidEnvironment(s) && (s.signatures != [] ==> d != 0)
    ensures GoodEntry(s, Starts(|s.signatures|, d), entry) && GoodExternCall(s, externCall)
  {
    entry, externCall := [], None;
    for i := 0 to |s.signatures|
      invariant GoodEntry(s, Starts(i, d), entry)
    {
      if PyMod(i, d) == 0 {
        var call := WriteFunctionCall(Fun(false, s.id, i), s.signatures[i]);
        entry := entry + [call];
      }
    }
    if s.id != 0 && s.env.externs.Some? {
      var call := WriteFunctionCall(Extern(s.id - 1), s.env.externs.value[s.id - 1]);
      externCall := Some(call);
    }
  }

  /** generate_c_file: it writes the file that is described above, or raises: for a call depth of zero, exactly when
      a remainder is taken, or for a utility file without functions. */
  method GenerateCFile(utility: bool, id: nat, numFunctions: nat, d: int, env: Environment) returns (r: Outcome)
    requires ValidEnvironment(Scope(utility, id, [], env))
    ensures r.Written? ==>
      && Generated(r.file, d) && |r.file.functions| == numFunctions
      && r.file.scope.utility == utility && r.file.scope.id == id && r.file.scope.env == env
      && (d == 0 ==> numFunctions <= if utility then 1 else 0)
    ensures r.ZeroDivision? ==> d == 0 && numFunctions > if utility then 1 else 0
    ensures r.EmptyRange? ==> !utility && env.utilities.Some? && [] in env.utilities.value
  {
    var signatures := CreateFunctionList(numFunctions);
    var s := Scope(utility, id, signatures, env);
    var functions := [];
    for i := 0 to numFunctions
      invariant |functions| == i && forall k :: 0 <= k < i ==> GoodFunction(s, d, k, functions[k])
      invariant d == 0 ==> i == 0 || numFunctions == 1
    {
      var g, failure := WriteFunction(s, i, d);
      if failure.Some? { return failure.value; }
      functions := functions + [g];
    }
    var entry, externCall := [], None;
    if !utility {
      if d == 0 && numFunctions > 0 { return ZeroDivision; }
      entry, externCall := WriteEntry(s, d);
    }
    return Written(CFile(s, functions, entry, externCall));
  }
}
