/** The cache of translated guest shaders: a memo table whose keys record the constant buffer words and texture
    types that a translation read. */
module ShaderCaches {
  import opened Common

  /** What identifies the guest code of a shader; the address it was loaded at plays no role. */
  datatype Code = Code(stage: nat, bytecode: seq<nat>, textureConstantBufferIndex: nat)

  /** The state of the guest that a translation may read. */
  datatype Environment = Environment(constantBufferRead: (nat, nat) -> nat, getTextureType: nat -> nat) {
    function Answer(q: Question): nat {
      match q
      case ConstantBuffer(index, offset) => constantBufferRead(index, offset)
      case Texture(handle) => getTextureType(handle)
    }
  }

  datatype Question = ConstantBuffer(index: nat, offset: nat) | Texture(handle: nat)

  datatype Read = Read(question: Question, answer: nat)

  /** What the translator does next, given the answers so far: read more, finish, or throw. */
  datatype Action<P> = Ask(question: Question) | Done(program: P) | Throw

  /** An arbitrary deterministic translator. */
  type Translator<!P> = (Code, seq<nat>) -> Action<P>

  datatype ConstantBufferWord = ConstantBufferWord(index: nat, offset: nat, value: nat)

  datatype CachedTextureType = CachedTextureType(handle: nat, textureType: nat)

  function Answers(h: seq<Read>): (r: seq<nat>)
    ensures |r| == |h|
    ensures forall i :: 0 <= i < |h| ==> r[i] == h[i].answer
  {
    seq(|h|, i requires 0 <= i < |h| => h[i].answer)
  }

  /** The translator asks exactly these questions when given these answers. */
  ghost predicate Follows<P>(tr: Translator<P>, code: Code, h: seq<Read>) {
    forall i :: 0 <= i < |h| ==> tr(code, Answers(h)[..i]) == Ask(h[i].question)
  }

  ghost predicate Faithful(h: seq<Read>, env: Environment) {
    forall i :: 0 <= i < |h| ==> h[i].answer == env.Answer(h[i].question)
  }

  /** The reads of a whole translation under an environment. */
  ghost predicate IsTranslation<P>(tr: Translator<P>, code: Code, env: Environment, h: seq<Read>) {
    Follows(tr, code, h) && Faithful(h, env) && !tr(code, Answers(h)).Ask?
  }

  ghost predicate Halts<P>(tr: Translator<P>, code: Code, env: Environment) {
    exists h :: IsTranslation(tr, code, env, h)
  }

  /** The meaning of a shader: what a fresh translation yields, or None when it throws. */
  ghost function Fresh<P>(tr: Translator<P>, code: Code, env: Environment): Option<P>
    requires Halts(tr, code, env)
  {
    var h :| IsTranslation(tr, code, env, h);
    Yield(tr(code, Answers(h)))
  }

  function Yield<P>(action: Action<P>): Option<P> {
    if action.Done? then Some(action.program) else None
  }

  /** A longer history and a whole translation under the same environment agree. */
  lemma {:induction false} SameReads<P>(tr: Translator<P>, code: Code, env: Environment, g: seq<Read>, h: seq<Read>,
                                        n: nat)
    requires Follows(tr, code, g) && Faithful(g, env) && IsTranslation(tr, code, env, h) && n <= |g|
    ensures n <= |h| && g[..n] == h[..n]
  {
    if n > 0 {
      SameReads(tr, code, env, g, h, n - 1);
      assert Answers(g)[..n - 1] == Answers(h)[..n - 1];
      assert Answers(h)[..|h|] == Answers(h);
      assert n <= |h|;
      assert g[n - 1] == h[n - 1];
      assert g[..n] == g[..n - 1] + [g[n - 1]];
    }
  }

  /** A translation is determined by its environment. */
  lemma TranslationUnique<P>(tr: Translator<P>, code: Code, env: Environment, g: seq<Read>, h: seq<Read>)
    requires IsTranslation(tr, code, env, g) && IsTranslation(tr, code, env, h)
    ensures g == h
  {
    SameReads(tr, code, env, g, h, |g|);
    SameReads(tr, code, env, h, g, |h|);
    assert g[..|g|] == g && h[..|h|] == h;
  }

  lemma FreshIs<P>(tr: Translator<P>, code: Code, env: Environment, h: seq<Read>)
    requires IsTranslation(tr, code, env, h)
    ensures Halts(tr, code, env) && Fresh(tr, code, env) == Yield(tr(code, Answers(h)))
  {
    var g :| IsTranslation(tr, code, env, g) && Fresh(tr, code, env) == Yield(tr(code, Answers(g)));
    TranslationUnique(tr, code, env, g, h);
  }

  /** The two recordings that a graphics environment keeps of the reads. */
  ghost function Words(h: seq<Read>): seq<ConstantBufferWord> {
    if h == [] then []
    else var last := h[|h| - 1];
      Words(h[..|h| - 1]) +
      if last.question.ConstantBuffer?
        then [ConstantBufferWord(last.question.index, last.question.offset, last.answer)] else []
  }

  ghost function Types(h: seq<Read>): seq<CachedTextureType> {
    if h == [] then []
    else var last := h[|h| - 1];
      Types(h[..|h| - 1]) +
      if last.question.Texture? then [CachedTextureType(last.question.handle, last.answer)] else []
  }

  predicate WordsMatch(words: seq<ConstantBufferWord>, env: Environment) {
    forall i :: 0 <= i < |words| ==> env.constantBufferRead(words[i].index, words[i].offset) == words[i].value
  }

  predicate TypesMatch(types: seq<CachedTextureType>, env: Environment) {
    forall i :: 0 <= i < |types| ==> env.getTextureType(types[i].handle) == types[i].textureType
  }

  /** The recordings match an environment exactly when the environment gives every recorded answer. */
  lemma {:induction false} RecordingsDecide(h: seq<Read>, env: Environment)
    ensures WordsMatch(Words(h), env) && TypesMatch(Types(h), env) <==> Faithful(h, env)
  {
    if h != [] {
      var front, last := h[..|h| - 1], h[|h| - 1];
      RecordingsDecide(front, env);
      assert h == front + [last];
      var w, t := Words(front), Types(front);
      if last.question.ConstantBuffer? {
        var word := ConstantBufferWord(last.question.index, last.question.offset, last.answer);
        assert Words(h) == w + [word] && Types(h) == t;
        assert (w + [word])[|w|] == word;
        assert forall i :: 0 <= i < |w| ==> (w + [word])[i] == w[i];
      } else {
        var tt := CachedTextureType(last.question.handle, last.answer);
        assert Types(h) == t + [tt] && Words(h) == w;
        assert (t + [tt])[|t|] == tt;
        assert forall i :: 0 <= i < |t| ==> (t + [tt])[i] == t[i];
      }
      assert Faithful(h, env) <==> Faithful(front, env) && last.answer == env.Answer(last.question);
    }
  }

  /** A translated program together with what its translation read. */
  datatype ShaderProgram<P> = ShaderProgram(ir: P, constantBufferWords: seq<ConstantBufferWord>,
    textureTypes: seq<CachedTextureType>) {
    /** The current state still gives every answer the translation was based on. */
    predicate VerifyState(env: Environment) {
      WordsMatch(constantBufferWords, env) && TypesMatch(textureTypes, env)
    }
  }

  datatype Entry<P> = Entry(code: Code, program: ShaderProgram<P>)

  /** The lookup comparison: same code, and the caller's own state gives every recorded answer. */
  predicate Matches<P>(entry: Entry<P>, code: Code, env: Environment) {
    entry.code == code && entry.program.VerifyState(env)
  }

  /** Some entry of the cache serves this state. */
  ghost predicate Cached<P>(cache: seq<Entry<P>>, code: Code, env: Environment) {
    exists i :: 0 <= i < |cache| && Matches(cache[i], code, env)
  }

  /** What a cache serves, a longer one serves. */
  lemma StaysCached<P>(before: seq<Entry<P>>, after: seq<Entry<P>>)
    requires before <= after
    ensures forall code, env :: Cached(before, code, env) ==> Cached(after, code, env)
  {
    forall code, env | Cached(before, code, env) ensures Cached(after, code, env) {
      var i :| 0 <= i < |before| && Matches(before[i], code, env);
      assert Matches(after[i], code, env);
    }
  }

  /** The comparison of two keys on insertion. */
  predicate SameKey<P>(entry: Entry<P>, other: Entry<P>) {
    && entry.code == other.code
    && entry.program.constantBufferWords == other.program.constantBufferWords
    && entry.program.textureTypes == other.program.textureTypes
  }

  /** The reads that justify an entry: the translator, given these answers, produces its program. */
  ghost predicate Justifies<P>(tr: Translator<P>, entry: Entry<P>, h: seq<Read>) {
    && Follows(tr, entry.code, h)
    && tr(entry.code, Answers(h)) == Done(entry.program.ir)
    && entry.program.constantBufferWords == Words(h)
    && entry.program.textureTypes == Types(h)
  }

  ghost predicate Sound<P>(tr: Translator<P>, entry: Entry<P>) {
    exists h :: Justifies(tr, entry, h)
  }

  /** Under any state that matches its recordings, a sound entry is what a fresh translation would yield; and a
      program whose state verifies is never stale. */
  lemma SoundEntryIsFresh<P>(tr: Translator<P>, entry: Entry<P>, env: Environment)
    requires Sound(tr, entry) && entry.program.VerifyState(env)
    ensures Halts(tr, entry.code, env) && Fresh(tr, entry.code, env) == Some(entry.program.ir)
  {
    var h :| Justifies(tr, entry, h);
    RecordingsDecide(h, env);
    FreshIs(tr, entry.code, env, h);
  }

  class ShaderManager<P(==)> {
    const translator: Translator<P>
    var programCache: seq<Entry<P>>

    ghost predicate Valid()
      reads this
    {
      forall i :: 0 <= i < |programCache| ==> Sound(translator, programCache[i])
    }

    constructor (translator: Translator<P>)
      ensures Valid() && programCache == [] && this.translator == translator
    {
      this.translator, programCache := translator, [];
    }

    /** The heterogeneous lookup: any entry that matches the caller's state. */
    method Find(code: Code, env: Environment) returns (r: Option<ShaderProgram<P>>)
      requires Valid()
      ensures r.Some? <==> Cached(programCache, code, env)
      ensures r.Some? ==> Entry(code, r.value) in programCache
      ensures r.Some? ==>
        r.value.VerifyState(env) && Halts(translator, code, env) && Fresh(translator, code, env) == Some(r.value.ir)
    {
      for i := 0 to |programCache|
        invariant forall j :: 0 <= j < i ==> !Matches(programCache[j], code, env)
      {
        if Matches(programCache[i], code, env) {
          SoundEntryIsFresh(translator, programCache[i], env);
          assert programCache[i] == Entry(code, programCache[i].program);
          return Some(programCache[i].program);
        }
      }
      return None;
    }

    /** A fresh translation in a graphics environment that records every read. */
    method Translate(code: Code, env: Environment) returns (r: Option<ShaderProgram<P>>)
      requires Halts(translator, code, env)
      ensures r.Some? <==> Fresh(translator, code, env).Some?
      ensures r.Some? ==> Some(r.value.ir) == Fresh(translator, code, env)
      ensures r.Some? ==> r.value.VerifyState(env) && Sound(translator, Entry(code, r.value))
    {
      ghost var whole :| IsTranslation(translator, code, env, whole);
      ghost var h: seq<Read> := [];
      var answers: seq<nat>, words: seq<ConstantBufferWord>, types: seq<CachedTextureType> := [], [], [];
      var action := translator(code, answers);
      while action.Ask?
        invariant h <= whole && answers == Answers(h) && action == translator(code, answers)
        invariant words == Words(h) && types == Types(h)
        decreases |whole| - |h|
      {
        var value := env.Answer(action.question);
        Advances(translator, code, env, whole, h);
        if action.question.ConstantBuffer? {
          words := words + [ConstantBufferWord(action.question.index, action.question.offset, value)];
        } else {
          types := types + [CachedTextureType(action.question.handle, value)];
        }
        ghost var read := Read(action.question, value);
        assert (h + [read])[..|h|] == h;
        h := h + [read];
        answers := answers + [value];
        assert answers == Answers(h);
        action := translator(code, answers);
      }
      Completes(translator, code, env, whole, h);
      FreshIs(translator, code, env, h);
      if action.Throw? {
        return None;
      }
      r := Some(ShaderProgram(action.program, words, types));
      RecordingsDecide(h, env);
      assert Justifies(translator, Entry(code, r.value), h);
    }

    /** Inserts a program unless its key is present, and returns whichever program the key now has. */
    method Emplace(code: Code, program: ShaderProgram<P>) returns (r: ShaderProgram<P>)
      requires Valid() && Sound(translator, Entry(code, program))
      modifies this
      ensures Valid() && old(programCache) <= programCache
      ensures Entry(code, r) in programCache && SameKey(Entry(code, r), Entry(code, program))
      ensures if exists i :: 0 <= i < |old(programCache)| && SameKey(old(programCache)[i], Entry(code, program))
        then programCache == old(programCache)
        else programCache == old(programCache) + [Entry(code, program)]
    {
      for i := 0 to |programCache|
        invariant programCache == old(programCache)
        invariant forall j :: 0 <= j < i ==> !SameKey(programCache[j], Entry(code, program))
      {
        if SameKey(programCache[i], Entry(code, program)) {
          assert programCache[i] == Entry(code, programCache[i].program);
          return programCache[i].program;
        }
      }
      programCache := programCache + [Entry(code, program)];
      return program;
    }

    /** A lookup, and on a miss a translation outside the lock followed by an insertion.  While the lock is not
        held, other threads may complete any number of their own translations.  Whatever they did, the caller
        gets the cache's own program, and it is exactly what a fresh translation under its own state yields.
        A hit translates and inserts nothing, and neither does a translation that throws. */
    method ParseGraphicsShader(code: Code, env: Environment, others: seq<(Code, Environment)>)
      returns (r: Option<ShaderProgram<P>>)
      requires Valid() && Halts(translator, code, env)
      requires forall i :: 0 <= i < |others| ==> Halts(translator, others[i].0, others[i].1)
      modifies this
      ensures Valid() && old(programCache) <= programCache
      ensures r.Some? <==> Fresh(translator, code, env).Some?
      ensures r.Some? ==> Some(r.value.ir) == Fresh(translator, code, env) && r.value.VerifyState(env)
      ensures r.Some? ==> Entry(code, r.value) in programCache && Cached(programCache, code, env)
      ensures r.None? || Cached(old(programCache), code, env) ==> programCache == old(programCache)
      ensures r.Some? && !Cached(old(programCache), code, env) ==> forall i :: 0 <= i < |others| ==>
        Fresh(translator, others[i].0, others[i].1).Some? ==> Cached(programCache, others[i].0, others[i].1)
    {
      r := Find(code, env);
      if r.Some? {
        return;
      }
      r := Translate(code, env);
      if r.None? {
        return; // the exception leaves the cache alone
      }
      for i := 0 to |others|
        invariant Valid() && old(programCache) <= programCache
        invariant forall j :: 0 <= j < i ==>
          Fresh(translator, others[j].0, others[j].1).Some? ==> Cached(programCache, others[j].0, others[j].1)
      {
        var other := Translate(others[i].0, others[i].1);
        if other.Some? {
          ghost var before := programCache;
          var theirs := Emplace(others[i].0, other.value);
          StaysCached(before, programCache);
          assert Matches(Entry(others[i].0, theirs), others[i].0, others[i].1);
        }
      }
      ghost var before := programCache;
      var program := Emplace(code, r.value);
      StaysCached(before, programCache);
      ghost var i :| 0 <= i < |programCache| && programCache[i] == Entry(code, program);
      assert Matches(programCache[i], code, env);
      SoundEntryIsFresh(translator, programCache[i], env);
      r := Some(program);
    }
  }

  /** An unfinished translation stops short of the whole one and asks its next question. */
  lemma Advances<P>(tr: Translator<P>, code: Code, env: Environment, whole: seq<Read>, h: seq<Read>)
    requires IsTranslation(tr, code, env, whole) && h <= whole && tr(code, Answers(h)).Ask?
    ensures |h| < |whole|
    ensures whole[|h|] == Read(tr(code, Answers(h)).question, env.Answer(tr(code, Answers(h)).question))
  {
    assert Answers(h) == Answers(whole)[..|h|];
    assert Answers(whole)[..|whole|] == Answers(whole);
  }

  /** A finished translation is the whole one. */
  lemma Completes<P>(tr: Translator<P>, code: Code, env: Environment, whole: seq<Read>, h: seq<Read>)
    requires IsTranslation(tr, code, env, whole) && h <= whole && !tr(code, Answers(h)).Ask?
    ensures IsTranslation(tr, code, env, h)
  {
    assert Answers(h) == Answers(whole)[..|h|];
    assert h == whole;
  }
}
