/**
 Where `self.method()` may lead when the enclosing class does not define the method: a worklist
 over base names that grows while it is read, over inheritance that may be cyclic.
 */
module SelfBaseMethods {
  import opened Ordering
  import opened Traversal

  /** A class of the file: its qualified name and the names of its bases in order. */
  datatype ClassSymbol = ClassSymbol(qualname: string, bases: seq<string>)

  /** What the file defines: top-level classes and methods by name, and what it imports under which name. */
  datatype Scope = Scope(
    classes: map<string, seq<ClassSymbol>>,
    methods: map<string, map<string, seq<string>>>,
    imports: map<string, string>)

  /** A base class imported from elsewhere: its name and the module it comes from. */
  type Imported = (string, string)

  /** Top-level classes are indexed under their qualified names. */
  ghost predicate Indexed(scope: Scope) {
    forall name, c :: name in scope.classes && c in scope.classes[name] ==> c.qualname == name
  }

  function ClassesNamed(scope: Scope, name: string): seq<ClassSymbol> {
    if name in scope.classes then scope.classes[name] else []
  }

  function MethodsNamed(scope: Scope, qualname: string, method_: string): seq<string> {
    if qualname in scope.methods && method_ in scope.methods[qualname] then scope.methods[qualname][method_] else []
  }

  // ----- which names are in play -----

  predicate SameFile(scope: Scope, start: string, name: string) {
    ClassesNamed(scope, name) != [] && name != start
  }

  /** A same-file class other than the start that defines the method. */
  predicate Definer(scope: Scope, start: string, method_: string, name: string) {
    SameFile(scope, start, name) && MethodsNamed(scope, name, method_) != []
  }

  predicate ImportedBase(scope: Scope, name: string) {
    ClassesNamed(scope, name) == [] && name in scope.imports
  }

  /** A name is looked through only if it is a same-file class that does not define the method. */
  function Through(scope: Scope, start: string, method_: string): string -> seq<string> {
    (name: string) =>
      if SameFile(scope, start, name) && MethodsNamed(scope, name, method_) == []
      then ClassesNamed(scope, name)[0].bases
      else []
  }

  function Itself(): string -> string {
    (name: string) => name
  }

  /** Base edges lead there from the class's own bases through non-defining same-file classes. */
  ghost predicate InPlay(scope: Scope, start: ClassSymbol, method_: string, name: string) {
    exists first :: first in start.bases && Reached(Through(scope, start.qualname, method_), Itself(), first, name)
  }

  lemma InPlayDirect(scope: Scope, start: ClassSymbol, method_: string, name: string)
    requires name in start.bases
    ensures InPlay(scope, start, method_, name)
  {
    assert Path(Through(scope, start.qualname, method_), Itself(), [name], name, name);
  }

  lemma InPlayThrough(scope: Scope, start: ClassSymbol, method_: string, m: string, n: string)
    requires InPlay(scope, start, method_, m) && n in Through(scope, start.qualname, method_)(m)
    ensures InPlay(scope, start, method_, n)
  {
    hide Links;
    var out := Through(scope, start.qualname, method_);
    var first :| first in start.bases && Reached(out, Itself(), first, m);
    var p :| Path(out, Itself(), p, first, m);
    LinkOf(out, m, n);
    assert Path(out, Itself(), p + [n], first, n);
  }

  lemma LinkOf(out: string -> seq<string>, m: string, n: string)
    ensures Links(out, Itself(), m, n) <==> n in out(m)
  {
    FarMembers(Itself(), out(m), n);
  }

  /** A list of names that holds the bases and is closed holds every name in play. */
  lemma ClosedHoldsAll(scope: Scope, start: ClassSymbol, method_: string, names: seq<string>, name: string)
    requires forall b :: b in start.bases ==> b in names
    requires forall m, n :: m in names && n in Through(scope, start.qualname, method_)(m) ==> n in names
    requires InPlay(scope, start, method_, name)
    ensures name in names
  {
    var out := Through(scope, start.qualname, method_);
    var first :| first in start.bases && Reached(out, Itself(), first, name);
    var p :| Path(out, Itself(), p, first, name);
    forall m, n | m in names && Links(out, Itself(), m, n) ensures n in names { LinkOf(out, m, n); }
    StaysInside(out, Itself(), names, p, first, name);
  }

  // ----- what is returned -----

  function MethodsOf(scope: Scope, method_: string, definers: seq<string>): seq<string> {
    if definers == [] then []
    else MethodsOf(scope, method_, definers[..|definers| - 1]) + MethodsNamed(scope, definers[|definers| - 1], method_)
  }

  /** Exactly the nearest definers in play, and exactly the imported bases in play, each once. */
  ghost predicate Exact(scope: Scope, start: ClassSymbol, method_: string, definers: seq<string>,
                        deferred: seq<Imported>) {
    && Distinct(definers) && Distinct(deferred)
    && (forall n :: n in definers <==> InPlay(scope, start, method_, n) && Definer(scope, start.qualname, method_, n))
    && (forall d :: d in deferred <==>
          InPlay(scope, start, method_, d.0) && ImportedBase(scope, d.0) && scope.imports[d.0] == d.1)
  }

  ghost predicate Resolves(scope: Scope, start: ClassSymbol, method_: string, candidates: seq<string>,
                           deferred: seq<Imported>) {
    exists definers ::
      Exact(scope, start, method_, definers, deferred) && candidates == MethodsOf(scope, method_, definers)
  }

  /**
   Names each of which is a base of the first class called as the one before, which is another
   class of the file and does not define the method. The first name is a base of the class itself.
   */
  ghost predicate BaseChain(scope: Scope, start: ClassSymbol, method_: string, p: seq<string>) {
    && |p| > 0 && p[0] in start.bases
    && forall i, j {:trigger p[i], p[j]} ::
         0 <= i && j == i + 1 && j < |p| ==> BaseOf(scope, start, method_, p[i], p[j])
  }

  ghost predicate BaseOf(scope: Scope, start: ClassSymbol, method_: string, name: string, base: string) {
    && name in scope.classes && scope.classes[name] != [] && name != start.qualname
    && !Holds(scope, name, method_) && base in scope.classes[name][0].bases
  }

  ghost predicate Holds(scope: Scope, class_: string, method_: string) {
    class_ in scope.methods && method_ in scope.methods[class_] && scope.methods[class_][method_] != []
  }

  /** Such a chain ends at the name. */
  ghost predicate ChainTo(scope: Scope, start: ClassSymbol, method_: string, name: string) {
    exists p :: BaseChain(scope, start, method_, p) && p[|p| - 1] == name
  }

  lemma LinksAreBases(scope: Scope, start: ClassSymbol, method_: string, m: string, n: string)
    ensures Links(Through(scope, start.qualname, method_), Itself(), m, n) <==> BaseOf(scope, start, method_, m, n)
  {
    LinkOf(Through(scope, start.qualname, method_), m, n);
  }

  lemma PathIsChain(scope: Scope, start: ClassSymbol, method_: string, p: seq<string>, first: string, name: string)
    requires Path(Through(scope, start.qualname, method_), Itself(), p, first, name) && first in start.bases
    ensures BaseChain(scope, start, method_, p) && p[|p| - 1] == name
  {
    hide Links, Through, BaseOf;
    var out := Through(scope, start.qualname, method_);
    forall i, j {:trigger p[i], p[j]} | 0 <= i && j == i + 1 && j < |p|
      ensures BaseOf(scope, start, method_, p[i], p[j])
    {
      assert Links(out, Itself(), p[i], p[i + 1]);
      LinksAreBases(scope, start, method_, p[i], p[j]);
    }
  }

  lemma ChainOfPlay(scope: Scope, start: ClassSymbol, method_: string, name: string)
    requires InPlay(scope, start, method_, name)
    ensures ChainTo(scope, start, method_, name)
  {
    hide Path, BaseChain, Through;
    var out := Through(scope, start.qualname, method_);
    var first :| first in start.bases && Reached(out, Itself(), first, name);
    var p :| Path(out, Itself(), p, first, name);
    PathIsChain(scope, start, method_, p, first, name);
  }

  lemma PlayOfChain(scope: Scope, start: ClassSymbol, method_: string, name: string)
    requires ChainTo(scope, start, method_, name)
    ensures InPlay(scope, start, method_, name)
  {
    hide Links, Through, BaseOf;
    var out := Through(scope, start.qualname, method_);
    var p :| BaseChain(scope, start, method_, p) && p[|p| - 1] == name;
    forall i {:trigger p[i]} | 0 <= i < |p| - 1 ensures Links(out, Itself(), p[i], p[i + 1]) {
      LinksAreBases(scope, start, method_, p[i], p[i + 1]);
    }
    assert Path(out, Itself(), p, p[0], name);
  }

  lemma InPlayIsChain(scope: Scope, start: ClassSymbol, method_: string, name: string)
    ensures InPlay(scope, start, method_, name) <==> ChainTo(scope, start, method_, name)
  {
    hide InPlay, ChainTo;
    if InPlay(scope, start, method_, name) { ChainOfPlay(scope, start, method_, name); }
    if ChainTo(scope, start, method_, name) { PlayOfChain(scope, start, method_, name); }
  }

  /**
   What the search returns, told by such chains: the methods of the other classes of the file they
   end at, and the imported names they end at that no class of the file has, each once.
   */
  ghost predicate Finds(scope: Scope, start: ClassSymbol, method_: string, candidates: seq<string>,
                        deferred: seq<Imported>) {
    && (forall x :: x in candidates <==>
          exists n :: ChainTo(scope, start, method_, n) && n in scope.classes && scope.classes[n] != []
                      && n != start.qualname && Holds(scope, n, method_) && x in scope.methods[n][method_])
    && Distinct(deferred)
    && (forall d :: d in deferred <==>
          && ChainTo(scope, start, method_, d.0) && (d.0 in scope.classes ==> scope.classes[d.0] == [])
          && d.0 in scope.imports && d.1 == scope.imports[d.0])
  }

  lemma {:induction false} MethodsOfMembers(scope: Scope, method_: string, definers: seq<string>, x: string)
    ensures x in MethodsOf(scope, method_, definers) <==>
            exists n :: n in definers && Holds(scope, n, method_) && x in scope.methods[n][method_]
  {
    if definers != [] {
      var before, last := definers[..|definers| - 1], definers[|definers| - 1];
      MethodsOfMembers(scope, method_, before, x);
      assert definers == before + [last];
    }
  }

  lemma ResolvesMeans(scope: Scope, start: ClassSymbol, method_: string, candidates: seq<string>,
                      deferred: seq<Imported>)
    requires Resolves(scope, start, method_, candidates, deferred)
    ensures Finds(scope, start, method_, candidates, deferred)
  {
    hide InPlay, ChainTo, MethodsOf;
    var definers :|
      Exact(scope, start, method_, definers, deferred) && candidates == MethodsOf(scope, method_, definers);
    forall n ensures InPlay(scope, start, method_, n) <==> ChainTo(scope, start, method_, n) {
      InPlayIsChain(scope, start, method_, n);
    }
    forall x ensures x in candidates <==>
        exists n :: ChainTo(scope, start, method_, n) && n in scope.classes && scope.classes[n] != []
                    && n != start.qualname && Holds(scope, n, method_) && x in scope.methods[n][method_] {
      MethodsOfMembers(scope, method_, definers, x);
    }
  }

  // ----- the worklist -----

  /** What reading one name must have led to. */
  ghost predicate Read(scope: Scope, start: ClassSymbol, name: string, deferred: seq<Imported>, visited: set<string>) {
    && (ImportedBase(scope, name) ==> (name, scope.imports[name]) in deferred)
    && (SameFile(scope, start.qualname, name) ==> name in visited)
  }

  /** What visiting a class must have led to. */
  ghost predicate Visited(scope: Scope, start: ClassSymbol, method_: string,
                          pending: seq<string>, definers: seq<string>, visited: set<string>) {
    && start.qualname in visited
    && (forall n :: n in visited && n != start.qualname ==>
          && (Definer(scope, start.qualname, method_, n) ==> n in definers)
          && (forall b :: b in Through(scope, start.qualname, method_)(n) ==> b in pending))
  }

  ghost predicate Sound(scope: Scope, start: ClassSymbol, method_: string,
                        pending: seq<string>, definers: seq<string>, deferred: seq<Imported>, visited: set<string>) {
    && (forall n :: n in pending ==> InPlay(scope, start, method_, n))
    && (forall n :: n in definers ==>
          n in visited && InPlay(scope, start, method_, n) && Definer(scope, start.qualname, method_, n))
    && (forall d :: d in deferred ==>
          InPlay(scope, start, method_, d.0) && ImportedBase(scope, d.0) && scope.imports[d.0] == d.1)
    && Distinct(definers) && Distinct(deferred)
  }

  ghost predicate ReadUpTo(scope: Scope, start: ClassSymbol, pending: seq<string>, i: nat, deferred: seq<Imported>,
                           visited: set<string>) {
    i <= |pending| && forall j :: 0 <= j < i ==> Read(scope, start, pending[j], deferred, visited)
  }

  lemma StartWorklist(scope: Scope, start: ClassSymbol, method_: string)
    ensures Sound(scope, start, method_, start.bases, [], [], {start.qualname})
    ensures Visited(scope, start, method_, start.bases, [], {start.qualname})
    ensures ReadUpTo(scope, start, start.bases, 0, [], {start.qualname})
  {
    hide InPlay;
    forall n | n in start.bases ensures InPlay(scope, start, method_, n) { InPlayDirect(scope, start, method_, n); }
  }

  /** What is read stays read while the lists and the visited set grow. */
  lemma ReadStays(scope: Scope, start: ClassSymbol, pending: seq<string>, i: nat, deferred: seq<Imported>,
                  visited: set<string>, pending': seq<string>, deferred': seq<Imported>, visited': set<string>)
    requires ReadUpTo(scope, start, pending, i, deferred, visited)
    requires pending <= pending' && deferred <= deferred' && visited <= visited'
    ensures ReadUpTo(scope, start, pending', i, deferred', visited')
  {
    forall j | 0 <= j < i ensures Read(scope, start, pending'[j], deferred', visited') {
      assert Read(scope, start, pending[j], deferred, visited);
    }
  }

  lemma DeferName(scope: Scope, start: ClassSymbol, method_: string, pending: seq<string>, definers: seq<string>,
                  deferred: seq<Imported>, visited: set<string>, name: string)
    requires Sound(scope, start, method_, pending, definers, deferred, visited)
    requires name in pending && ImportedBase(scope, name) && (name, scope.imports[name]) !in deferred
    ensures Sound(scope, start, method_, pending, definers, deferred + [(name, scope.imports[name])], visited)
  {
    hide InPlay;
  }

  lemma VisitDefiner(scope: Scope, start: ClassSymbol, method_: string, pending: seq<string>, definers: seq<string>,
                     deferred: seq<Imported>, visited: set<string>, name: string)
    requires Sound(scope, start, method_, pending, definers, deferred, visited)
    requires Visited(scope, start, method_, pending, definers, visited)
    requires name in pending && ClassesNamed(scope, name) != [] && name !in visited
             && MethodsNamed(scope, name, method_) != []
    ensures Sound(scope, start, method_, pending, definers + [name], deferred, visited + {name})
    ensures Visited(scope, start, method_, pending, definers + [name], visited + {name})
  {
    hide InPlay;
  }

  lemma VisitThrough(scope: Scope, start: ClassSymbol, method_: string, pending: seq<string>, definers: seq<string>,
                     deferred: seq<Imported>, visited: set<string>, name: string)
    requires Sound(scope, start, method_, pending, definers, deferred, visited)
    requires Visited(scope, start, method_, pending, definers, visited)
    requires name in pending && ClassesNamed(scope, name) != [] && name !in visited
             && MethodsNamed(scope, name, method_) == []
    ensures var pending' := pending + ClassesNamed(scope, name)[0].bases;
      && Sound(scope, start, method_, pending', definers, deferred, visited + {name})
      && Visited(scope, start, method_, pending', definers, visited + {name})
  {
    hide InPlay;
    var bases := ClassesNamed(scope, name)[0].bases;
    assert Through(scope, start.qualname, method_)(name) == bases;
    forall n | n in bases ensures InPlay(scope, start, method_, n) { InPlayThrough(scope, start, method_, name, n); }
  }

  /** One name of the worklist that same-file classes answer to; only the first of them counts. */
  method VisitClasses(scope: Scope, start: ClassSymbol, method_: string, name: string, candidates: seq<string>,
                      pending: seq<string>, ghost definers: seq<string>, ghost deferred: seq<Imported>,
                      visited: set<string>)
    returns (candidates': seq<string>, pending': seq<string>, ghost definers': seq<string>, visited': set<string>)
    requires Indexed(scope) && name in pending && ClassesNamed(scope, name) != []
    requires candidates == MethodsOf(scope, method_, definers)
    requires Sound(scope, start, method_, pending, definers, deferred, visited)
    requires Visited(scope, start, method_, pending, definers, visited)
    ensures candidates' == MethodsOf(scope, method_, definers')
    ensures Sound(scope, start, method_, pending', definers', deferred, visited')
    ensures Visited(scope, start, method_, pending', definers', visited')
    ensures pending <= pending' && visited' == visited + {name}
    ensures name in visited ==> pending' == pending
  {
    hide InPlay, Through, Definer, SameFile, ImportedBase, Visited, Sound;
    candidates', pending', definers', visited' := candidates, pending, definers, visited;
    var symbols := ClassesNamed(scope, name);
    for j := 0 to |symbols|
      invariant candidates' == MethodsOf(scope, method_, definers')
      invariant Sound(scope, start, method_, pending', definers', deferred, visited')
      invariant Visited(scope, start, method_, pending', definers', visited')
      invariant pending <= pending' && (name in visited ==> pending' == pending)
      invariant visited' == if j == 0 then visited else visited + {name}
    {
      assert symbols[j].qualname == name;
      if symbols[j].qualname !in visited' {
        var methods := MethodsNamed(scope, symbols[j].qualname, method_);
        if methods != [] {
          VisitDefiner(scope, start, method_, pending', definers', deferred, visited', name);
          assert (definers' + [name])[..|definers'|] == definers';
          candidates', definers' := candidates' + methods, definers' + [name];
        } else {
          VisitThrough(scope, start, method_, pending', definers', deferred, visited', name);
          pending' := pending' + symbols[j].bases;
        }
        visited' := visited' + {symbols[j].qualname};
      }
    }
  }

  /**
   The candidates are the methods of the nearest definers in play, each class contributing once,
   and each imported base in play is deferred once; the worklist ends even on cyclic inheritance.
   */
  method FindBaseMethods(scope: Scope, start: ClassSymbol, method_: string)
    returns (candidates: seq<string>, deferred: seq<Imported>)
    requires Indexed(scope)
    ensures Resolves(scope, start, method_, candidates, deferred)
    ensures Finds(scope, start, method_, candidates, deferred)
  {
    hide Finds, InPlay, Through, Definer, SameFile, Visited, Sound, Exact, ReadUpTo;
    candidates, deferred := [], [];
    ghost var definers: seq<string> := [];
    var pending, visited := start.bases, {start.qualname};
    StartWorklist(scope, start, method_);
    var i := 0;
    while i < |pending|
      invariant 0 <= i <= |pending| && start.bases <= pending
      invariant candidates == MethodsOf(scope, method_, definers)
      invariant Sound(scope, start, method_, pending, definers, deferred, visited)
      invariant Visited(scope, start, method_, pending, definers, visited)
      invariant ReadUpTo(scope, start, pending, i, deferred, visited)
      decreases scope.classes.Keys - visited, |pending| - i
    {
      var name := pending[i];
      ghost var pending0, deferred0, visited0 := pending, deferred, visited;
      if ClassesNamed(scope, name) == [] {
        if name in scope.imports && (name, scope.imports[name]) !in deferred {
          DeferName(scope, start, method_, pending, definers, deferred, visited, name);
          deferred := deferred + [(name, scope.imports[name])];
        }
      } else {
        candidates, pending, definers, visited :=
          VisitClasses(scope, start, method_, name, candidates, pending, definers, deferred, visited);
        if name in visited0 { assert visited == visited0; }
        else { assert name in scope.classes.Keys - visited0; }
      }
      ReadStays(scope, start, pending0, i, deferred0, visited0, pending, deferred, visited);
      ReadNext(scope, start, pending, i, deferred, visited);
      i := i + 1;
    }
    WorklistDone(scope, start, method_, pending, definers, deferred, visited);
    ResolvesMeans(scope, start, method_, candidates, deferred);
  }

  lemma ReadNext(scope: Scope, start: ClassSymbol, pending: seq<string>, i: nat, deferred: seq<Imported>,
                 visited: set<string>)
    requires i < |pending| && ReadUpTo(scope, start, pending, i, deferred, visited)
    requires ImportedBase(scope, pending[i]) ==> (pending[i], scope.imports[pending[i]]) in deferred
    requires ClassesNamed(scope, pending[i]) != [] ==> pending[i] in visited
    ensures ReadUpTo(scope, start, pending, i + 1, deferred, visited)
  {
  }

  /** The worklist read to its end holds every name in play. */
  lemma WorklistDone(scope: Scope, start: ClassSymbol, method_: string, pending: seq<string>, definers: seq<string>,
                     deferred: seq<Imported>, visited: set<string>)
    requires start.bases <= pending
    requires Sound(scope, start, method_, pending, definers, deferred, visited)
    requires Visited(scope, start, method_, pending, definers, visited)
    requires ReadUpTo(scope, start, pending, |pending|, deferred, visited)
    ensures Exact(scope, start, method_, definers, deferred)
  {
    hide InPlay;
    forall m, n | m in pending && n in Through(scope, start.qualname, method_)(m) ensures n in pending {
      PendingRead(scope, start, pending, deferred, visited, m);
    }
    forall n | InPlay(scope, start, method_, n) ensures n in pending && Read(scope, start, n, deferred, visited) {
      ClosedHoldsAll(scope, start, method_, pending, n);
      PendingRead(scope, start, pending, deferred, visited, n);
    }
  }

  lemma PendingRead(scope: Scope, start: ClassSymbol, pending: seq<string>, deferred: seq<Imported>,
                    visited: set<string>, name: string)
    requires ReadUpTo(scope, start, pending, |pending|, deferred, visited) && name in pending
    ensures Read(scope, start, name, deferred, visited)
  {
  }
}
