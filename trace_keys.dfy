/**
 * Trace keys: the identity under which a lambda class's creation frame is
 * stored, derived from the lambda class's generated name and its loader.
 */
module TraceKeys {
  import opened Wrappers
  import opened JavaStrings

  /** The marker the JVM puts in generated lambda class names, `Owner$$Lambda...`. */
  const LambdaMarker: string := "$$Lambda"

  /** The identity of a loaded class: its defining loader and its name. */
  datatype ClassId = ClassId(definingLoader: nat, name: string)

  /**
   * A `Class<?>` as the registry sees it: its name, and what its class loader's
   * `loadClass` returns for each name it can load (a missing name is a
   * `ClassNotFoundException`).
   */
  datatype JClass = JClass(name: string, loader: map<string, ClassId>)

  /** `TraceKey`: the owner class and the lambda discriminator `$$Lambda...`. */
  datatype TraceKey = TraceKey(owner: ClassId, lambdaId: string) {
    /**
     * `equals(Object)` for the two arguments modelled here, null (`None`)
     * and a key: false for null, otherwise both fields compared; the
     * reference shortcut `this == obj` implies equal fields.
     */
    function Equals(obj: Option<TraceKey>): (r: bool)
      ensures r <==> obj == Some(this)
    {
      obj.Some? && lambdaId == obj.value.lambdaId && owner == obj.value.owner
    }
  }

  /**
   * `key(lambdaClass)`: the owner name is the part of the lambda class name
   * before the first `$$Lambda`, resolved through the lambda's own loader;
   * the id is the rest of the name, marker included. An unresolvable owner
   * gives null (`Success(None)`); a name without the marker makes
   * `substring(0, -1)` throw.
   */
  function KeyOf(lambdaClass: JClass): (r: Result<Option<TraceKey>, JavaException>)
    ensures r.Failure? <==> !Contains(lambdaClass.name, LambdaMarker)
    ensures r.Failure? ==> r.error == StringIndexOutOfBounds
    ensures r.Success? ==>
      var n := IndexOf(lambdaClass.name, LambdaMarker);
      var ownerName := lambdaClass.name[..n];
      && 0 <= n
      && (r.value.None? <==> ownerName !in lambdaClass.loader)
      && (r.value.Some? ==>
            && r.value.value.owner == lambdaClass.loader[ownerName]
            && ownerName + r.value.value.lambdaId == lambdaClass.name
            && StartsWith(r.value.value.lambdaId, LambdaMarker))
  {
    var name := lambdaClass.name;
    var i := IndexOf(name, LambdaMarker);
    if i < 0 then Failure(StringIndexOutOfBounds)
    else
      var owner := name[..i];
      if owner in lambdaClass.loader then
        assert owner + name[i..] == name;
        Success(Some(TraceKey(lambdaClass.loader[owner], name[i..])))
      else Success(None)
  }

  /**
   * For a name `P + "$$Lambda" + S` in which the marker first occurs right
   * after `P`: the key is `(load(P), "$$Lambda" + S)`, or null when `P` does
   * not load.
   */
  lemma KeyOfLambdaName(ownerName: string, suffix: string, loader: map<string, ClassId>)
    requires forall j :: 0 <= j < |ownerName| ==> !OccursAt(ownerName + LambdaMarker + suffix, LambdaMarker, j)
    ensures KeyOf(JClass(ownerName + LambdaMarker + suffix, loader))
         == if ownerName in loader
            then Success(Some(TraceKey(loader[ownerName], LambdaMarker + suffix)))
            else Success(None)
  {
    var name := ownerName + LambdaMarker + suffix;
    assert name[|ownerName|..|ownerName| + |LambdaMarker|] == LambdaMarker;
    assert OccursAt(name, LambdaMarker, |ownerName|);
    var i := IndexOf(name, LambdaMarker);
    assert i == |ownerName|;
    assert name[..i] == ownerName;
    assert name[i..] == LambdaMarker + suffix;
  }

  /**
   * Two classes whose keys both resolve and agree came from the same owner
   * and share the lambda discriminator: the key loses nothing but the owner
   * name's spelling through the loader.
   */
  lemma KeyOfInjective(c: JClass, d: JClass)
    requires KeyOf(c).Success? && KeyOf(c).value.Some?
    requires KeyOf(c) == KeyOf(d)
    requires c.loader == d.loader
    requires forall x, y :: x in c.loader && y in c.loader && c.loader[x] == c.loader[y] ==> x == y
    ensures c.name == d.name
  {
    var k := KeyOf(c).value.value;
    var nc := IndexOf(c.name, LambdaMarker);
    var nd := IndexOf(d.name, LambdaMarker);
    assert c.loader[c.name[..nc]] == k.owner == d.loader[d.name[..nd]];
  }
}
