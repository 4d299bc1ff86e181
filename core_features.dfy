/**
 * The cond-expand feature registry of the runtime (src/core.c,
 * cond_features): an association list of enabled features, each `(feature)`
 * or `(feature module)`, newest first, and a list of disabled features that
 * can never be enabled again.  Symbols are interned, so `eq?` on them is
 * equality of their names.
 */
module CoreFeatures {
  import opened Wrappers

  type Symbol = string

  /** One alist entry: the feature and the module that provides it, if any. */
  datatype FeatureCell = FeatureCell(feature: Symbol, moduleName: Option<Symbol>)

  /** Whether some entry of the alist names `f`. */
  predicate Listed(f: Symbol, alist: seq<FeatureCell>) {
    exists i :: 0 <= i < |alist| && alist[i].feature == f
  }

  /** Scm_AssocDelete with SCM_CMP_EQ (list.c, not part of this model):
      the alist without the entries whose key is `f`, order kept. */
  function AssocDelete(f: Symbol, alist: seq<FeatureCell>): (r: seq<FeatureCell>)
    ensures |r| <= |alist|
  {
    if alist == [] then []
    else if alist[0].feature == f then AssocDelete(f, alist[1..])
    else [alist[0]] + AssocDelete(f, alist[1..])
  }

  /** The entries AssocDelete keeps are exactly the ones not keyed by `f`,
      in their original order: filtering an entry out never touches the others. */
  lemma {:induction false} AssocDeleteMeaning(f: Symbol, alist: seq<FeatureCell>)
    ensures !Listed(f, AssocDelete(f, alist))
    ensures forall g :: g != f ==> (Listed(g, AssocDelete(f, alist)) <==> Listed(g, alist))
    ensures !Listed(f, alist) ==> AssocDelete(f, alist) == alist
  {
    if alist != [] {
      AssocDeleteMeaning(f, alist[1..]);
      var rest := AssocDelete(f, alist[1..]);
      forall g | g != f
        ensures Listed(g, AssocDelete(f, alist)) <==> Listed(g, alist)
      {
        ListedCons(g, alist[0], alist[1..]);
        if alist[0].feature != f {
          ListedCons(g, alist[0], rest);
        }
      }
      if alist[0].feature != f {
        ListedCons(f, alist[0], rest);
      }
      if !Listed(f, alist) {
        ListedCons(f, alist[0], alist[1..]);
      }
    }
  }

  lemma ListedCons(f: Symbol, c: FeatureCell, rest: seq<FeatureCell>)
    ensures Listed(f, [c] + rest) <==> c.feature == f || Listed(f, rest)
  {
    if c.feature == f {
      assert ([c] + rest)[0].feature == f;
    }
    if Listed(f, rest) {
      var i :| 0 <= i < |rest| && rest[i].feature == f;
      assert ([c] + rest)[i + 1] == rest[i];
    }
    if Listed(f, [c] + rest) && c.feature != f {
      var i :| 0 <= i < |[c] + rest| && ([c] + rest)[i].feature == f;
      assert i > 0 && rest[i - 1] == ([c] + rest)[i];
      assert Listed(f, rest);
    }
  }

  class CondFeatures {
    /** Enabled features, newest first. */
    var alist: seq<FeatureCell>
    /** Disabled features, newest first. */
    var dlist: seq<Symbol>

    /** No disabled feature is enabled. */
    ghost predicate Valid()
      reads this
    {
      forall f :: f in dlist ==> !Listed(f, alist)
    }

    constructor ()
      ensures Valid() && alist == [] && dlist == []
    {
      alist := [];
      dlist := [];
    }

    /** Scm_AddFeature: prepends the entry unless the feature is disabled;
        an entry already present is not looked for. */
    method AddFeature(feature: Symbol, moduleName: Option<Symbol>)
      requires Valid()
      modifies this`alist
      ensures Valid()
      ensures feature !in dlist ==> alist == [FeatureCell(feature, moduleName)] + old(alist)
      ensures feature in dlist ==> alist == old(alist)
    {
      if feature !in dlist {
        alist := [FeatureCell(feature, moduleName)] + alist;
        forall f | f in dlist
          ensures !Listed(f, alist)
        {
          ListedCons(f, FeatureCell(feature, moduleName), old(alist));
        }
      }
    }

    /** Scm_DisableFeature: records the feature as disabled and drops its entries. */
    method DisableFeature(feature: Symbol)
      requires Valid()
      modifies this
      ensures Valid()
      ensures dlist == [feature] + old(dlist)
      ensures alist == AssocDelete(feature, old(alist))
    {
      dlist := [feature] + dlist;
      alist := AssocDelete(feature, alist);
      AssocDeleteMeaning(feature, old(alist));
    }

    /** Scm_DeleteFeature: drops the feature's entries without disabling it. */
    method DeleteFeature(feature: Symbol)
      requires Valid()
      modifies this`alist
      ensures Valid()
      ensures alist == AssocDelete(feature, old(alist))
    {
      alist := AssocDelete(feature, alist);
      AssocDeleteMeaning(feature, old(alist));
    }
  }

  /** Disabling wins: once a feature is disabled, adding it again leaves it
      unlisted. */
  method DisableThenAdd(cf: CondFeatures, feature: Symbol, moduleName: Option<Symbol>)
    requires cf.Valid()
    modifies cf
    ensures cf.Valid() && !Listed(feature, cf.alist)
  {
    cf.DisableFeature(feature);
    cf.AddFeature(feature, moduleName);
    assert feature in cf.dlist;
  }

  /** Deleting is not disabling: a feature deleted and then added again is
      listed, at the head, unless it was disabled before. */
  method DeleteThenAdd(cf: CondFeatures, feature: Symbol, moduleName: Option<Symbol>)
    requires cf.Valid()
    modifies cf
    ensures cf.Valid()
    ensures feature !in old(cf.dlist) ==> cf.alist == [FeatureCell(feature, moduleName)] + AssocDelete(feature, old(cf.alist))
    ensures feature in old(cf.dlist) ==> !Listed(feature, cf.alist)
  {
    cf.DeleteFeature(feature);
    cf.AddFeature(feature, moduleName);
  }
}
