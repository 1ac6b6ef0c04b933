/**
 * The template binder (`PdfDocMix`): holds a template, text and image
 * bindings, metadata and finalisation options, and drives the engine through
 * init, fill and end each time an output is requested.
 */
module DocMix {
  import opened Lang
  import opened JavaMaps
  import opened DocInfo
  import opened PdfEngine

  /** The attribution `init` merges into the creator on every run. */
  const ATTRIBUTION := "by jrimum.org/bopepo"

  /** What `end` always asks for last, in this order. */
  const FINALIZATION: seq<EngineOp> :=
    [Consolidate, EliminateShared, FlushOutput, CloseOutput, CloseReader, CloseStamper]

  predicate EndsWith(s: string, suffix: string) {
    |suffix| <= |s| && s[|s| - |suffix|..] == suffix
  }

  /**
   * The creator `init` stores back before pushing the metadata: the
   * attribution alone when the stored creator is blank, otherwise the
   * stored creator, a space, and the attribution.
   */
  function MergedCreator(creator: Option<string>): (r: string)
    ensures |r| == (if IsBlank(creator) then 0 else |creator.value| + 1) + |ATTRIBUTION|
    ensures r == ATTRIBUTION <==> IsBlank(creator)
  {
    if IsBlank(creator) then ATTRIBUTION else creator.value + " " + ATTRIBUTION
  }

  /**
   * The merge keeps a non-blank creator in front, always ends with the
   * attribution, and never leaves the creator blank.
   */
  lemma MergeKeepsCreator(creator: Option<string>)
    ensures IsBlank(creator) ==> MergedCreator(creator) == ATTRIBUTION
    ensures !IsBlank(creator) ==>
      var merged := MergedCreator(creator);
      |creator.value| < |merged| && merged[..|creator.value| + 1] == creator.value + " "
    ensures EndsWith(MergedCreator(creator), ATTRIBUTION)
    ensures !IsBlank(Some(MergedCreator(creator)))
  {
    var merged := MergedCreator(creator);
    if !IsBlank(creator) {
      assert merged[..|creator.value| + 1] == creator.value + " ";
    }
    assert merged[|merged| - |ATTRIBUTION|..] == ATTRIBUTION;
    assert merged[|merged| - |ATTRIBUTION|] == 'b';
  }

  /**
   * Merging again appends the attribution again: a second `init` over the
   * same metadata leaves a different creator than the first.
   */
  lemma MergeIsNotIdempotent(creator: Option<string>)
    ensures MergedCreator(Some(MergedCreator(creator))) == MergedCreator(creator) + " " + ATTRIBUTION
    ensures MergedCreator(Some(MergedCreator(creator))) != MergedCreator(creator)
  {
    MergeKeepsCreator(creator);
  }

  /** The creator left by `n` successive `init`s over `creator`. */
  function CreatorAfterRuns(creator: Option<string>, n: nat): Option<string>
  {
    if n == 0 then creator else Some(MergedCreator(CreatorAfterRuns(creator, n - 1)))
  }

  /** The space-separated attribution, `n` times over. */
  function Attributions(n: nat): string
  {
    if n == 0 then "" else Attributions(n - 1) + " " + ATTRIBUTION
  }

  /** Appending to a non-blank string keeps it non-blank. */
  lemma NonBlankExtended(s: string, t: string)
    requires !IsBlank(Some(s))
    ensures !IsBlank(Some(s + t))
  {
    var i :| 0 <= i < |s| && !IsWhitespace(s[i]);
    assert (s + t)[i] == s[i];
  }

  /** The attribution has a non-whitespace character. */
  lemma AttributionIsNotBlank()
    ensures !IsBlank(Some(ATTRIBUTION))
  {
    assert !IsWhitespace(ATTRIBUTION[0]);
  }

  /** One more run over a non-blank creator appends a space and the attribution to it. */
  lemma OneMoreRun(creator: Option<string>, n: nat, previous: string)
    requires CreatorAfterRuns(creator, n) == Some(previous) && !IsBlank(Some(previous))
    ensures CreatorAfterRuns(creator, n + 1) == Some(previous + " " + ATTRIBUTION)
  {
  }

  /** One more attribution extends the string of `n` of them. */
  lemma OneMoreAttribution(head: string, n: nat)
    ensures head + Attributions(n) + " " + ATTRIBUTION == head + Attributions(n + 1)
  {
  }

  /**
   * Every run appends the attribution again: after `n` runs a non-blank
   * creator `c` reads `c` followed by `n` attributions.
   */
  lemma {:induction false} RunsAppendToCreator(creator: string, n: nat)
    requires !IsBlank(Some(creator))
    ensures CreatorAfterRuns(Some(creator), n) == Some(creator + Attributions(n))
  {
    if n == 0 {
      assert creator + "" == creator;
    } else {
      RunsAppendToCreator(creator, n - 1);
      AppendOneRun(creator, n - 1);
    }
  }

  /** The inductive step of `RunsAppendToCreator`. */
  lemma AppendOneRun(creator: string, m: nat)
    requires !IsBlank(Some(creator))
    requires CreatorAfterRuns(Some(creator), m) == Some(creator + Attributions(m))
    ensures CreatorAfterRuns(Some(creator), m + 1) == Some(creator + Attributions(m + 1))
  {
    NonBlankExtended(creator, Attributions(m));
    OneMoreRun(Some(creator), m, creator + Attributions(m));
    OneMoreAttribution(creator, m);
  }

  /** Runs over a blank creator are the runs over the attribution alone, one run later. */
  lemma {:induction false} BlankCreatorRunsBehind(creator: Option<string>, n: nat)
    requires IsBlank(creator)
    ensures CreatorAfterRuns(creator, n + 1) == CreatorAfterRuns(Some(ATTRIBUTION), n)
  {
    if n == 0 {
      assert CreatorAfterRuns(creator, 1) == Some(MergedCreator(creator));
    } else {
      BlankCreatorRunsBehind(creator, n - 1);
      assert CreatorAfterRuns(creator, n + 1) == Some(MergedCreator(CreatorAfterRuns(creator, n)));
      assert CreatorAfterRuns(Some(ATTRIBUTION), n) == Some(MergedCreator(CreatorAfterRuns(Some(ATTRIBUTION), n - 1)));
    }
  }

  /**
   * A blank creator becomes the attribution on the first run, and every
   * later run appends it again: after `n + 1` runs it reads the attribution
   * followed by `n` more.
   */
  lemma RunsFromBlankCreator(creator: Option<string>, n: nat)
    requires IsBlank(creator)
    ensures CreatorAfterRuns(creator, n + 1) == Some(ATTRIBUTION + Attributions(n))
  {
    BlankCreatorRunsBehind(creator, n);
    AttributionIsNotBlank();
    RunsAppendToCreator(ATTRIBUTION, n);
  }

  /**
   * What `init` asks of the engine once the template parsed: open the
   * reader and the stamper, push the metadata, and set the title viewer
   * preference only when that option has been given.
   */
  function InitOps(template: seq<Byte>, info: map<string, Option<string>>, displayDocTitle: Option<bool>): (ops: seq<EngineOp>)
    ensures |ops| >= 3 && ops[..3] == [OpenReader(template), OpenStamper, SetMoreInfo(info)]
    ensures forall b :: ViewerPref(b) in ops <==> displayDocTitle == Some(b)
    ensures forall k :: 3 <= k < |ops| ==> ops[k].ViewerPref?
  {
    [OpenReader(template), OpenStamper, SetMoreInfo(info)]
      + if displayDocTitle.Some? then [ViewerPref(displayDocTitle.value)] else []
  }

  /**
   * What `end` asks of the engine: compression when enabled, exactly one of
   * field removal and flattening, then the fixed normalisation and close
   * sequence.
   */
  function EndOps(fullCompression: bool, removeFields: bool): (ops: seq<EngineOp>)
    ensures FullCompression in ops <==> fullCompression
    ensures RemoveFields in ops <==> removeFields
    ensures Flatten in ops <==> !removeFields
    ensures |FINALIZATION| < |ops| && ops[|ops| - |FINALIZATION|..] == FINALIZATION
  {
    (if fullCompression then [FullCompression] else [])
      + (if removeFields then [RemoveFields] else [Flatten])
      + FINALIZATION
  }

  /** Whether `setImage` places an image on `name`: a non-blank name the form gives a position for. */
  predicate Placeable(name: string, form: Form) {
    !IsBlank(Some(name)) && name in form.positions
  }

  /** What `setImage` asks of the engine for one binding: a replacement at the field's position, or nothing. */
  function ImagePlacement(name: string, image: Image, form: Form): (ops: seq<EngineOp>)
    ensures |ops| <= 1
    ensures ops != [] <==> Placeable(name, form)
    ensures ops != [] ==> ops[0] == ReplaceImage(name, form.positions[name], image)
  {
    if !IsBlank(Some(name)) && name in form.positions
    then [ReplaceImage(name, form.positions[name], image)]
    else []
  }

  /** Every image binding is non-null. */
  predicate NoNullImage(images: map<string, Option<Image>>) {
    forall name :: name in images ==> images[name].Some?
  }

  /** `order` lists every name in `names` exactly once: one iteration order of a map with those keys. */
  ghost predicate Enumerates(order: seq<string>, names: set<string>) {
    && (forall i, j :: 0 <= i < j < |order| ==> order[i] != order[j])
    && (forall name :: name in order <==> name in names)
  }

  /** What `setTextFields` asks of the engine when it visits the bindings in `order`. */
  function TextOps(order: seq<string>, texts: map<string, Option<string>>): (ops: seq<EngineOp>)
    requires forall name :: name in order ==> name in texts
    ensures |ops| == |order|
    ensures forall i :: 0 <= i < |ops| ==> ops[i] == SetField(order[i], texts[order[i]])
  {
    if order == [] then []
    else TextOps(order[..|order| - 1], texts) + [SetField(order[|order| - 1], texts[order[|order| - 1]])]
  }

  /** What `setImageFields` asks of the engine when it visits the bindings in `order`, all of them holding an image. */
  function ImageOps(order: seq<string>, images: map<string, Option<Image>>, form: Form): (ops: seq<EngineOp>)
    requires forall name :: name in order ==> name in images && images[name].Some?
    ensures |ops| <= |order|
  {
    if order == [] then []
    else
      var name := order[|order| - 1];
      ImageOps(order[..|order| - 1], images, form) + ImagePlacement(name, images[name].value, form)
  }

  /** Visiting one more, not yet visited, name keeps the visiting order an enumeration. */
  lemma EnumeratesOneMore(order: seq<string>, visited: set<string>, name: string)
    requires Enumerates(order, visited) && name !in visited
    ensures Enumerates(order + [name], visited + {name})
  {
    var longer := order + [name];
    forall i, j | 0 <= i < j < |longer| ensures longer[i] != longer[j] {
      if j == |order| {
        assert longer[i] == order[i] && order[i] in visited;
      } else {
        assert longer[i] == order[i] && longer[j] == order[j];
      }
    }
    forall n ensures n in longer <==> n in visited + {name} {
      if n in order {
        var k :| 0 <= k < |order| && order[k] == n;
        assert longer[k] == n;
      }
      if n in longer && n != name {
        var k :| 0 <= k < |longer| && longer[k] == n;
        assert k < |order| && order[k] == n;
      }
    }
  }

  lemma TextOpsOneMore(order: seq<string>, texts: map<string, Option<string>>, name: string)
    requires forall n :: n in order ==> n in texts
    requires name in texts
    ensures TextOps(order + [name], texts) == TextOps(order, texts) + [SetField(name, texts[name])]
  {
    assert (order + [name])[..|order|] == order;
  }

  lemma ImageOpsOneMore(order: seq<string>, images: map<string, Option<Image>>, form: Form, name: string)
    requires forall n :: n in order ==> n in images && images[n].Some?
    requires name in images && images[name].Some?
    ensures ImageOps(order + [name], images, form)
      == ImageOps(order, images, form) + ImagePlacement(name, images[name].value, form)
  {
    assert (order + [name])[..|order|] == order;
  }

  /**
   * Whatever the order, a text fill sets each binding's field to its value,
   * once per binding and nothing else.
   */
  lemma {:induction false} TextFillSetsEachBindingOnce(order: seq<string>, texts: map<string, Option<string>>)
    requires Enumerates(order, texts.Keys)
    ensures forall name :: name in texts ==> SetField(name, texts[name]) in TextOps(order, texts)
    ensures forall op :: op in TextOps(order, texts) ==> op.SetField? && op.name in texts && op.value == texts[op.name]
    ensures |TextOps(order, texts)| == |texts|
  {
    var ops := TextOps(order, texts);
    forall name | name in texts ensures SetField(name, texts[name]) in ops {
      var k :| 0 <= k < |order| && order[k] == name;
      assert ops[k] == SetField(name, texts[name]);
    }
    DistinctLength(order, texts.Keys);
  }

  /** A sequence without repetitions over exactly the elements of `names` is as long as `names` is large. */
  lemma {:induction false} DistinctLength(order: seq<string>, names: set<string>)
    requires Enumerates(order, names)
    ensures |order| == |names|
    decreases |order|
  {
    if order != [] {
      var last := order[|order| - 1];
      var rest := order[..|order| - 1];
      forall name | name in rest ensures name in names - {last} {
        var k :| 0 <= k < |rest| && rest[k] == name;
        assert order[k] == name && k < |order| - 1;
      }
      forall name | name in names - {last} ensures name in rest {
        var k :| 0 <= k < |order| && order[k] == name;
        assert k < |order| - 1;
        assert rest[k] == name;
      }
      assert Enumerates(rest, names - {last});
      DistinctLength(rest, names - {last});
    } else {
      assert names == {};
    }
  }

  /**
   * An image fill replaces exactly the placeable fields among the visited
   * bindings, each with its own image at the position the form gives it.
   */
  lemma {:induction false} ImageFillPlacesExactlyThePlaceable(order: seq<string>, images: map<string, Option<Image>>, form: Form)
    requires forall name :: name in order ==> name in images && images[name].Some?
    ensures forall op :: op in ImageOps(order, images, form) ==>
      && op.ReplaceImage? && op.name in order && Placeable(op.name, form)
      && images[op.name] == Some(op.image) && op.position == form.positions[op.name]
    ensures forall name :: name in order && Placeable(name, form) ==>
      ReplaceImage(name, form.positions[name], images[name].value) in ImageOps(order, images, form)
    decreases |order|
  {
    if order != [] {
      var rest := order[..|order| - 1];
      var name := order[|order| - 1];
      ImageFillPlacesExactlyThePlaceable(rest, images, form);
      var ops := ImageOps(order, images, form);
      var step := ImagePlacement(name, images[name].value, form);
      assert ops == ImageOps(rest, images, form) + step;
      forall n | n in order && Placeable(n, form)
        ensures ReplaceImage(n, form.positions[n], images[n].value) in ops
      {
        if n != name {
          var k :| 0 <= k < |order| && order[k] == n;
          assert rest[k] == n;
        }
      }
    }
  }

  /**
   * Over bindings visited once each, an image fill replaces each field at
   * most once: its calls are all replacements, and no two name the same field.
   */
  lemma {:induction false} ImageFillPlacesEachOnce(order: seq<string>, images: map<string, Option<Image>>, form: Form)
    requires forall name :: name in order ==> name in images && images[name].Some?
    requires forall i, j :: 0 <= i < j < |order| ==> order[i] != order[j]
    ensures forall i, j :: 0 <= i < j < |ImageOps(order, images, form)| ==>
      && ImageOps(order, images, form)[i].ReplaceImage?
      && ImageOps(order, images, form)[j].ReplaceImage?
      && ImageOps(order, images, form)[i].name != ImageOps(order, images, form)[j].name
    decreases |order|
  {
    if order != [] {
      var rest := order[..|order| - 1];
      var last := order[|order| - 1];
      assert forall i, j :: 0 <= i < j < |rest| ==> rest[i] != rest[j] by {
        forall i, j | 0 <= i < j < |rest| ensures rest[i] != rest[j] {
          assert rest[i] == order[i] && rest[j] == order[j];
        }
      }
      assert last !in rest by {
        forall k | 0 <= k < |rest| ensures rest[k] != last {
          assert rest[k] == order[k];
        }
      }
      var restOps := ImageOps(rest, images, form);
      var ops := ImageOps(order, images, form);
      assert ops == restOps + ImagePlacement(last, images[last].value, form);
      ImageFillPlacesEachOnce(rest, images, form);
      ImageFillPlacesExactlyThePlaceable(rest, images, form);
      ImageOpsOnlyReplace(order, images, form);
      forall i, j | 0 <= i < j < |ops|
        ensures ops[i].ReplaceImage? && ops[j].ReplaceImage? && ops[i].name != ops[j].name
      {
        assert ops[i] == restOps[i];
        if j < |restOps| {
          assert ops[j] == restOps[j];
          assert restOps[i].name != restOps[j].name;
        } else {
          var step := ImagePlacement(last, images[last].value, form);
          assert ops[j] == step[j - |restOps|] == ReplaceImage(last, form.positions[last], images[last].value);
          assert restOps[i] in restOps;
          assert restOps[i].name in rest;
          assert ops[i].name != ops[j].name;
        }
      }
    } else {
      assert ImageOps(order, images, form) == [];
    }
  }

  /** What one cycle reads of a binder: everything but the trace. */
  datatype Setup = Setup(
    template: seq<Byte>,
    info: map<string, Option<string>>,
    texts: map<string, Option<string>>,
    images: map<string, Option<Image>>,
    form: Option<Form>,
    fullCompression: bool,
    removeFields: bool,
    displayDocTitle: Option<bool>)

  /**
   * `run` is one complete init, fill and end cycle over `setup`, visiting
   * the text bindings in `textOrder` and the image bindings in `imageOrder`.
   */
  ghost predicate IsRunOf(run: seq<EngineOp>, setup: Setup, textOrder: seq<string>, imageOrder: seq<string>) {
    && setup.form.Some?
    && NoNullImage(setup.images)
    && Enumerates(textOrder, setup.texts.Keys)
    && Enumerates(imageOrder, setup.images.Keys)
    && run == InitOps(setup.template, setup.info, setup.displayDocTitle)
              + (TextOps(textOrder, setup.texts) + ImageOps(imageOrder, setup.images, setup.form.value))
              + EndOps(setup.fullCompression, setup.removeFields)
  }

  /**
   * `run` is an init and fill over `setup` that the fill stopped: some image
   * binding is null, the image bindings visited before it (each once) were
   * placed, and `end` never ran.
   */
  ghost predicate IsStoppedRunOf(run: seq<EngineOp>, setup: Setup, textOrder: seq<string>, imageOrder: seq<string>) {
    && setup.form.Some?
    && !NoNullImage(setup.images)
    && Enumerates(textOrder, setup.texts.Keys)
    && (forall name :: name in imageOrder ==> name in setup.images && setup.images[name].Some?)
    && (forall i, j :: 0 <= i < j < |imageOrder| ==> imageOrder[i] != imageOrder[j])
    && run == InitOps(setup.template, setup.info, setup.displayDocTitle)
              + (TextOps(textOrder, setup.texts) + ImageOps(imageOrder, setup.images, setup.form.value))
  }

  /**
   * A stopped run only opened the engine, pushed the metadata and viewer
   * preference and filled fields: nothing was compressed, removed,
   * flattened, flushed or closed.
   */
  lemma StoppedRunNeverEnds(run: seq<EngineOp>, setup: Setup, textOrder: seq<string>, imageOrder: seq<string>)
    requires IsStoppedRunOf(run, setup, textOrder, imageOrder)
    ensures forall op :: op in run ==>
      op.OpenReader? || op.OpenStamper? || op.SetMoreInfo? || op.ViewerPref? || op.SetField? || op.ReplaceImage?
  {
    FillOnlyFills(textOrder, setup.texts, imageOrder, setup.images, setup.form.value);
    InitThenFillOnly(setup.template, setup.info, setup.displayDocTitle,
                     TextOps(textOrder, setup.texts) + ImageOps(imageOrder, setup.images, setup.form.value));
  }

  /** The fill step makes field calls and nothing else. */
  lemma FillOnlyFills(textOrder: seq<string>, texts: map<string, Option<string>>,
                      imageOrder: seq<string>, images: map<string, Option<Image>>, form: Form)
    requires forall name :: name in textOrder ==> name in texts
    requires forall name :: name in imageOrder ==> name in images && images[name].Some?
    ensures forall op :: op in TextOps(textOrder, texts) + ImageOps(imageOrder, images, form) ==>
      op.SetField? || op.ReplaceImage?
  {
    var textOps := TextOps(textOrder, texts);
    var imageOps := ImageOps(imageOrder, images, form);
    var fill := textOps + imageOps;
    ImageOpsOnlyReplace(imageOrder, images, form);
    forall op: EngineOp | op in fill ensures op.SetField? || op.ReplaceImage? {
      var k :| 0 <= k < |fill| && fill[k] == op;
      if k < |textOps| {
        assert fill[k] == textOps[k];
      } else {
        assert fill[k] == imageOps[k - |textOps|];
      }
    }
  }

  /** Init followed by field calls holds nothing but opening, metadata, viewer preference and field calls. */
  lemma InitThenFillOnly(template: seq<Byte>, info: map<string, Option<string>>, displayDocTitle: Option<bool>, fill: seq<EngineOp>)
    requires forall op :: op in fill ==> op.SetField? || op.ReplaceImage?
    ensures forall op :: op in InitOps(template, info, displayDocTitle) + fill ==>
      op.OpenReader? || op.OpenStamper? || op.SetMoreInfo? || op.ViewerPref? || op.SetField? || op.ReplaceImage?
  {
    var head := [OpenReader(template), OpenStamper, SetMoreInfo(info)];
    var tail: seq<EngineOp> := if displayDocTitle.Some? then [ViewerPref(displayDocTitle.value)] else [];
    assert forall op :: op in head ==> op.OpenReader? || op.OpenStamper? || op.SetMoreInfo?;
    assert forall op :: op in tail ==> op.ViewerPref?;
    assert InitOps(template, info, displayDocTitle) + fill == head + tail + fill;
  }

  /** `init` touches no field and asks for no finalisation. */
  lemma InitTouchesNoField(template: seq<Byte>, info: map<string, Option<string>>, displayDocTitle: Option<bool>)
    ensures forall op :: op in InitOps(template, info, displayDocTitle) ==>
      && !op.SetField? && !op.ReplaceImage?
      && op != FullCompression && op != RemoveFields && op != Flatten
  {
    var head := [OpenReader(template), OpenStamper, SetMoreInfo(info)];
    var tail: seq<EngineOp> := if displayDocTitle.Some? then [ViewerPref(displayDocTitle.value)] else [];
    assert forall op :: op in head ==> op.OpenReader? || op.OpenStamper? || op.SetMoreInfo?;
    assert forall op :: op in tail ==> op.ViewerPref?;
    assert InitOps(template, info, displayDocTitle) == head + tail;
  }

  /** `end` touches no field and no viewer preference. */
  lemma EndTouchesNoField(fullCompression: bool, removeFields: bool)
    ensures forall op :: op in EndOps(fullCompression, removeFields) ==>
      !op.SetField? && !op.ReplaceImage? && !op.ViewerPref?
  {
    var head: seq<EngineOp> := (if fullCompression then [FullCompression] else [])
      + (if removeFields then [RemoveFields] else [Flatten]);
    assert forall op :: op in head ==> !op.SetField? && !op.ReplaceImage? && !op.ViewerPref?;
    assert forall op :: op in FINALIZATION ==> !op.SetField? && !op.ReplaceImage? && !op.ViewerPref?;
    assert EndOps(fullCompression, removeFields) == head + FINALIZATION;
  }

  /** Every call an image fill makes is a field replacement. */
  lemma {:induction false} ImageOpsOnlyReplace(order: seq<string>, images: map<string, Option<Image>>, form: Form)
    requires forall name :: name in order ==> name in images && images[name].Some?
    ensures forall k :: 0 <= k < |ImageOps(order, images, form)| ==> ImageOps(order, images, form)[k].ReplaceImage?
    decreases |order|
  {
    if order != [] {
      ImageOpsOnlyReplace(order[..|order| - 1], images, form);
    }
  }

  /**
   * The fill step sets the text fields first, one call per text binding,
   * and only then replaces image fields: the calls before position
   * `|textOrder|` are all `SetField`, the ones from there on all `ReplaceImage`.
   */
  lemma FillSetsTextsBeforeImages(textOrder: seq<string>, texts: map<string, Option<string>>,
                                  imageOrder: seq<string>, images: map<string, Option<Image>>, form: Form)
    requires forall name :: name in textOrder ==> name in texts
    requires forall name :: name in imageOrder ==> name in images && images[name].Some?
    ensures var fill := TextOps(textOrder, texts) + ImageOps(imageOrder, images, form);
      forall k :: 0 <= k < |fill| ==>
        (k < |textOrder| ==> fill[k].SetField?) && (|textOrder| <= k ==> fill[k].ReplaceImage?)
  {
    ImageOpsOnlyReplace(imageOrder, images, form);
  }

  /** The first `n` elements of a concatenation come from its left part when that part is long enough. */
  lemma PrefixOfConcat(a: seq<EngineOp>, b: seq<EngineOp>, n: nat)
    requires n <= |a|
    ensures (a + b)[..n] == a[..n]
  {
  }

  /** The last `n` elements of a concatenation come from its right part when that part is long enough. */
  lemma SuffixOfConcat(a: seq<EngineOp>, b: seq<EngineOp>, n: nat)
    requires n <= |b|
    ensures (a + b)[|a + b| - n..] == b[|b| - n..]
  {
  }

  /**
   * Whatever the fill step asked for, a run opens the reader and the stamper
   * and pushes the metadata first, and finishes with the fixed close sequence.
   */
  lemma RunOpensFirstAndClosesLast(run: seq<EngineOp>, template: seq<Byte>, info: map<string, Option<string>>, displayDocTitle: Option<bool>,
                                   fill: seq<EngineOp>, fullCompression: bool, removeFields: bool)
    requires run == InitOps(template, info, displayDocTitle) + fill + EndOps(fullCompression, removeFields)
    ensures run[..3] == [OpenReader(template), OpenStamper, SetMoreInfo(info)]
    ensures |FINALIZATION| < |run| && run[|run| - |FINALIZATION|..] == FINALIZATION
  {
    var init := InitOps(template, info, displayDocTitle);
    var end := EndOps(fullCompression, removeFields);
    PrefixOfConcat(init + fill, end, 3);
    PrefixOfConcat(init, fill, 3);
    SuffixOfConcat(init + fill, end, |FINALIZATION|);
  }

  /**
   * When the fill step only touches fields, a run carries each option
   * exactly as the binder holds it: the viewer preference, compression, and
   * field removal or flattening.
   */
  lemma RunCarriesTheOptions(run: seq<EngineOp>, template: seq<Byte>, info: map<string, Option<string>>, displayDocTitle: Option<bool>,
                             fill: seq<EngineOp>, fullCompression: bool, removeFields: bool)
    requires forall op :: op in fill ==> op.SetField? || op.ReplaceImage?
    requires run == InitOps(template, info, displayDocTitle) + fill + EndOps(fullCompression, removeFields)
    ensures forall b :: ViewerPref(b) in run <==> displayDocTitle == Some(b)
    ensures FullCompression in run <==> fullCompression
    ensures RemoveFields in run <==> removeFields
    ensures Flatten in run <==> !removeFields
  {
    var init := InitOps(template, info, displayDocTitle);
    var end := EndOps(fullCompression, removeFields);
    forall b ensures ViewerPref(b) in run <==> displayDocTitle == Some(b) {
      EndTouchesNoField(fullCompression, removeFields);
    }
    assert FullCompression in run <==> fullCompression by {
      InitTouchesNoField(template, info, displayDocTitle);
    }
    assert RemoveFields in run <==> removeFields by {
      InitTouchesNoField(template, info, displayDocTitle);
    }
    assert Flatten in run <==> !removeFields by {
      InitTouchesNoField(template, info, displayDocTitle);
    }
  }

  /**
   * What a complete cycle promises, read off the cycle itself: it opens the
   * reader and the stamper and pushes the metadata first, ends with the
   * fixed close sequence, and carries each option exactly when it is set.
   */
  lemma RunOfCarriesTheOptions(run: seq<EngineOp>, setup: Setup, textOrder: seq<string>, imageOrder: seq<string>)
    requires IsRunOf(run, setup, textOrder, imageOrder)
    ensures run[..3] == [OpenReader(setup.template), OpenStamper, SetMoreInfo(setup.info)]
    ensures |FINALIZATION| < |run| && run[|run| - |FINALIZATION|..] == FINALIZATION
    ensures forall b :: ViewerPref(b) in run <==> setup.displayDocTitle == Some(b)
    ensures FullCompression in run <==> setup.fullCompression
    ensures RemoveFields in run <==> setup.removeFields
    ensures Flatten in run <==> !setup.removeFields
  {
    var fill := TextOps(textOrder, setup.texts) + ImageOps(imageOrder, setup.images, setup.form.value);
    assert forall op :: op in fill ==> op.SetField? || op.ReplaceImage? by {
      FillOnlyFills(textOrder, setup.texts, imageOrder, setup.images, setup.form.value);
    }
    RunOpensFirstAndClosesLast(run, setup.template, setup.info, setup.displayDocTitle, fill, setup.fullCompression, setup.removeFields);
    RunCarriesTheOptions(run, setup.template, setup.info, setup.displayDocTitle, fill, setup.fullCompression, setup.removeFields);
  }

  /** Two appends in a row are one append of both. */
  lemma Chain(t0: seq<EngineOp>, t1: seq<EngineOp>, t2: seq<EngineOp>, a: seq<EngineOp>, b: seq<EngineOp>)
    requires t1 == t0 + a && t2 == t1 + b
    ensures t2 == t0 + (a + b)
  {
  }

  /** A trace that grew by `added` keeps what it had as a prefix and ends with `added`. */
  lemma Extends(before: seq<EngineOp>, after: seq<EngineOp>, added: seq<EngineOp>)
    requires after == before + added
    ensures |before| <= |after| && after[..|before|] == before && after[|before|..] == added
  {
  }

  class PdfDocMix {
    /** The template's bytes; set by construction or `ChangeTemplate`, never null. */
    var template: array<Byte>
    /** The metadata holder, created empty with the binder and never handed out. */
    const docInfo: PdfDocInfo
    /** Text bindings (field name to value, null values allowed); null until the first put. */
    var txtMap: StringMap?<Option<string>>
    /** Image bindings; null until the first put. */
    var imgMap: StringMap?<Option<Image>>
    var fullCompression: bool
    var removeFields: bool
    /** The title viewer preference: `None` leaves it to the template. */
    var displayDocTitle: Option<bool>
    /** The field accessor of the engine session `Init` last opened; `None` before the first. */
    var form: Option<Form>
    /** Every call the engine has received from this binder, oldest first. */
    var trace: seq<EngineOp>

    /** A binder as construction leaves it, apart from its template. */
    ghost predicate Fresh()
      reads this, docInfo.docInfo
    {
      && docInfo.docInfo.entries == map[]
      && txtMap == null && imgMap == null
      && fullCompression && removeFields && displayDocTitle == None
      && form == None && trace == []
    }

    /**
     * The text bindings are never the binder's own metadata map: the holder
     * and its map are private to the binder and no method hands them out,
     * so no caller can pass that map back in as bindings.
     */
    ghost predicate Valid()
      reads this`txtMap
    {
      txtMap != docInfo.docInfo
    }

    /** `PdfDocMix(byte[])`, with its null check left to `CreateWithTemplate`: adopts the array itself. */
    constructor (template: array<Byte>)
      ensures this.template == template
      ensures fresh(docInfo) && fresh(docInfo.docInfo)
      ensures Fresh() && Valid()
    {
      this.template := template;
      var info := PdfDocInfo.Create();
      docInfo := info;
      txtMap, imgMap := null, null;
      fullCompression, removeFields, displayDocTitle := true, true, None;
      form, trace := None, [];
    }

    /** `createWithTemplate(byte[])`: refuses a null template. */
    static method CreateWithTemplate(template: array?<Byte>) returns (r: Result<PdfDocMix>)
      ensures r.Err? <==> template == null
      ensures r.Err? ==> r.error == InvalidArgument
      ensures r.Ok? ==> fresh(r.value) && fresh(r.value.docInfo) && fresh(r.value.docInfo.docInfo)
      ensures r.Ok? ==> r.value.template == template && r.value.Fresh() && r.value.Valid()
    {
      if template == null {
        return Err(InvalidArgument);
      }
      var mix := new PdfDocMix(template);
      return Ok(mix);
    }

    /** `changeTemplate(byte[])`: refuses null; otherwise replaces the template and nothing else. */
    method ChangeTemplate(newTemplate: array?<Byte>) returns (r: Outcome)
      modifies this`template
      ensures r.Fail? <==> newTemplate == null
      ensures r.Fail? ==> r.error == InvalidArgument && template == old(template)
      ensures r.Pass? ==> template == newTemplate
    {
      if newTemplate == null {
        return Fail(InvalidArgument);
      }
      template := newTemplate;
      return Pass;
    }

    /** `getTemplate()`: a new array with the template's bytes. */
    method GetTemplate() returns (copy: array<Byte>)
      ensures fresh(copy) && copy[..] == template[..]
    {
      var source := template;
      copy := new Byte[source.Length](i requires 0 <= i < source.Length reads source => source[i]);
    }

    /** The text bindings as a map; none when the binding map was never created. */
    function Texts(): map<string, Option<string>>
      reads this`txtMap, txtMap
    {
      if txtMap == null then map[] else txtMap.entries
    }

    /** The image bindings as a map; none when the binding map was never created. */
    function Images(): map<string, Option<Image>>
      reads this`imgMap, imgMap
    {
      if imgMap == null then map[] else imgMap.entries
    }

    /** The part of the binder a cycle reads: everything but the trace. */
    function Current(): Setup
      reads this`template, this`form, this`displayDocTitle, this`fullCompression, this`removeFields
      reads this`txtMap, this`imgMap, template, docInfo.docInfo, txtMap, imgMap
    {
      Setup(template[..], docInfo.docInfo.entries, Texts(), Images(), form,
            fullCompression, removeFields, displayDocTitle)
    }

    /**
     * `run` is one complete init, fill and end cycle over the binder's
     * present state, visiting the text bindings in `textOrder` and the image
     * bindings in `imageOrder`.
     */
    ghost predicate IsRun(run: seq<EngineOp>, textOrder: seq<string>, imageOrder: seq<string>)
      reads this`template, this`form, this`displayDocTitle, this`fullCompression, this`removeFields
      reads this`txtMap, this`imgMap, template, docInfo.docInfo, txtMap, imgMap
    {
      IsRunOf(run, Current(), textOrder, imageOrder)
    }

    /** `run` is an init and fill over the binder's present state that a null image binding stopped. */
    ghost predicate IsStoppedRun(run: seq<EngineOp>, textOrder: seq<string>, imageOrder: seq<string>)
      reads this`template, this`form, this`displayDocTitle, this`fullCompression, this`removeFields
      reads this`txtMap, this`imgMap, template, docInfo.docInfo, txtMap, imgMap
    {
      IsStoppedRunOf(run, Current(), textOrder, imageOrder)
    }

    /** `getTextFields()`: the binding map object itself, not a copy. */
    method GetTextFields() returns (m: StringMap?<Option<string>>)
      ensures m == txtMap
    {
      m := txtMap;
    }

    /** `getImageFields()`: the binding map object itself, not a copy. */
    method GetImageFields() returns (m: StringMap?<Option<Image>>)
      ensures m == imgMap
    {
      m := imgMap;
    }

    /** `putAllTexts`: refuses a null or empty map; otherwise adopts it in place of all text bindings. */
    method PutAllTexts(m: StringMap?<Option<string>>) returns (r: Outcome)
      requires Valid() && m != docInfo.docInfo
      modifies this`txtMap
      ensures Valid()
      ensures r.Fail? <==> m == null || |m.entries| == 0
      ensures r.Fail? ==> r.error == InvalidArgument && txtMap == old(txtMap)
      ensures r.Pass? ==> txtMap == m && Texts() == m.entries
    {
      if m == null || |m.entries| == 0 {
        return Fail(InvalidArgument);
      }
      txtMap := m;
      return Pass;
    }

    /** `putAllImages`: refuses a null or empty map; otherwise adopts it in place of all image bindings. */
    method PutAllImages(m: StringMap?<Option<Image>>) returns (r: Outcome)
      modifies this`imgMap
      ensures r.Fail? <==> m == null || |m.entries| == 0
      ensures r.Fail? ==> r.error == InvalidArgument && imgMap == old(imgMap)
      ensures r.Pass? ==> imgMap == m && Images() == m.entries
    {
      if m == null || |m.entries| == 0 {
        return Fail(InvalidArgument);
      }
      imgMap := m;
      return Pass;
    }

    /** `put(name, String)`: refuses a blank name; otherwise upserts one text binding, creating the map if needed. */
    method PutText(name: Option<string>, value: Option<string>) returns (r: Outcome)
      requires Valid()
      modifies this`txtMap, txtMap
      ensures Valid() && docInfo.docInfo.entries == old(docInfo.docInfo.entries)
      ensures r.Fail? <==> IsBlank(name)
      ensures r.Fail? ==> r.error == InvalidArgument && txtMap == old(txtMap) && Texts() == old(Texts())
      ensures r.Pass? ==> txtMap != null && Texts() == old(Texts())[name.value := value]
      ensures r.Pass? ==> if old(txtMap) == null then fresh(txtMap) else txtMap == old(txtMap)
    {
      if IsBlank(name) {
        return Fail(InvalidArgument);
      }
      if txtMap == null {
        txtMap := new StringMap<Option<string>>();
      }
      txtMap.Put(name.value, value);
      return Pass;
    }

    /** `put(name, Image)`: refuses a blank name; otherwise upserts one image binding, creating the map if needed. */
    method PutImage(name: Option<string>, value: Option<Image>) returns (r: Outcome)
      modifies this`imgMap, imgMap
      ensures r.Fail? <==> IsBlank(name)
      ensures r.Fail? ==> r.error == InvalidArgument && imgMap == old(imgMap) && Images() == old(Images())
      ensures r.Pass? ==> imgMap != null && Images() == old(Images())[name.value := value]
      ensures r.Pass? ==> if old(imgMap) == null then fresh(imgMap) else imgMap == old(imgMap)
    {
      if IsBlank(name) {
        return Fail(InvalidArgument);
      }
      if imgMap == null {
        imgMap := new StringMap<Option<Image>>();
      }
      imgMap.Put(name.value, value);
      return Pass;
    }

    /** `withFullCompression`. */
    method WithFullCompression(option: bool)
      modifies this`fullCompression
      ensures fullCompression == option
    {
      fullCompression := option;
    }

    /** `removeFields(boolean)`: true removes the form at the end, false flattens it. */
    method WithRemoveFields(option: bool)
      modifies this`removeFields
      ensures removeFields == option
    {
      removeFields := option;
    }

    /** `displayDocTilte` (so spelt in the source): once called, the preference is always emitted. */
    method DisplayDocTitle(option: bool)
      modifies this`displayDocTitle
      ensures displayDocTitle == Some(option)
    {
      displayDocTitle := Some(option);
    }

    /** `title(String)`: passed through to the metadata holder. */
    method SetTitle(title: Option<string>)
      requires Valid()
      modifies docInfo.docInfo
      ensures Valid() && Texts() == old(Texts())
      ensures docInfo.docInfo.entries == StoreIfPresent(old(docInfo.docInfo.entries), TITLE, title)
    {
      docInfo.SetTitle(title);
    }

    /** `author(String)`: passed through to the metadata holder. */
    method SetAuthor(author: Option<string>)
      requires Valid()
      modifies docInfo.docInfo
      ensures Valid() && Texts() == old(Texts())
      ensures docInfo.docInfo.entries == StoreIfPresent(old(docInfo.docInfo.entries), AUTHOR, author)
    {
      docInfo.SetAuthor(author);
    }

    /** `subject(String)`: passed through to the metadata holder. */
    method SetSubject(subject: Option<string>)
      requires Valid()
      modifies docInfo.docInfo
      ensures Valid() && Texts() == old(Texts())
      ensures docInfo.docInfo.entries == StoreIfPresent(old(docInfo.docInfo.entries), SUBJECT, subject)
    {
      docInfo.SetSubject(subject);
    }

    /** `keywords(String)`: passed through to the metadata holder. */
    method SetKeywords(keywords: Option<string>)
      requires Valid()
      modifies docInfo.docInfo
      ensures Valid() && Texts() == old(Texts())
      ensures docInfo.docInfo.entries == StoreIfPresent(old(docInfo.docInfo.entries), KEYWORDS, keywords)
    {
      docInfo.SetKeywords(keywords);
    }

    /** `creator(String)`: passed through to the metadata holder. */
    method SetCreator(creator: Option<string>)
      requires Valid()
      modifies docInfo.docInfo
      ensures Valid() && Texts() == old(Texts())
      ensures docInfo.docInfo.entries == StoreIfPresent(old(docInfo.docInfo.entries), CREATOR, creator)
    {
      docInfo.SetCreator(creator);
    }

    /**
     * `init`: parse a copy of the template (a malformed one fails before
     * anything else happens), open the stamper, merge the attribution into
     * the stored creator, push the metadata, and set the viewer preference
     * when it has been given.
     */
    method Init(parse: seq<Byte> -> Option<Form>) returns (r: Outcome)
      requires Valid()
      modifies this`trace, this`form, docInfo.docInfo
      ensures Valid() && Texts() == old(Texts())
      ensures r.Fail? <==> parse(template[..]).None?
      ensures r.Fail? ==> r.error == IllegalState && trace == old(trace) && form == old(form)
      ensures r.Fail? ==> docInfo.docInfo.entries == old(docInfo.docInfo.entries)
      ensures r.Pass? ==> form == parse(template[..])
      ensures r.Pass? ==>
        docInfo.docInfo.entries == old(docInfo.docInfo.entries)[CREATOR := Some(MergedCreator(old(docInfo.Creator())))]
      ensures r.Pass? ==> trace == old(trace) + InitOps(template[..], docInfo.docInfo.entries, displayDocTitle)
    {
      var bytes := GetTemplate();
      var parsed := parse(bytes[..]);
      if parsed.None? {
        return Fail(IllegalState);
      }
      var openReader, openStamper := OpenReader(bytes[..]), OpenStamper;
      var creator := docInfo.Creator();
      if IsBlank(creator) {
        SetCreator(Some(ATTRIBUTION));
      } else {
        SetCreator(Some(creator.value + " " + ATTRIBUTION));
      }
      var info := docInfo.ToMap();
      var calls := [openReader, openStamper, SetMoreInfo(info.entries)];
      if displayDocTitle.Some? {
        calls := calls + [ViewerPref(displayDocTitle.value)];
      }
      trace := trace + calls;
      form := parsed;
      return Pass;
    }

    /** `setTextFields`: set every text binding's field once, in the map's (unspecified) iteration order. */
    method SetTextFields() returns (ghost order: seq<string>)
      modifies this`trace
      ensures Enumerates(order, Texts().Keys)
      ensures trace == old(trace) + TextOps(order, Texts())
    {
      order := [];
      ghost var start := trace;
      if txtMap != null && |txtMap.entries| > 0 {
        var texts := txtMap.entries;
        var pending := texts.Keys;
        while pending != {}
          invariant pending <= texts.Keys
          invariant Enumerates(order, texts.Keys - pending)
          invariant trace == start + TextOps(order, texts)
          decreases pending
        {
          var name :| name in pending;
          ghost var before := trace;
          trace := trace + [SetField(name, texts[name])];
          Chain(start, before, trace, TextOps(order, texts), [SetField(name, texts[name])]);
          TextOpsOneMore(order, texts, name);
          EnumeratesOneMore(order, texts.Keys - pending, name);
          assert texts.Keys - (pending - {name}) == (texts.Keys - pending) + {name};
          order := order + [name];
          pending := pending - {name};
        }
      }
    }

    /** `setImage`: replace the field's area with the image when the name is non-blank and the field has a position. */
    method SetImage(name: string, image: Image)
      requires form.Some?
      modifies this`trace
      ensures trace == old(trace) + ImagePlacement(name, image, form.value)
    {
      if !IsBlank(Some(name)) {
        var position := Lookup(form.value.positions, name);
        if position.Some? {
          trace := trace + [ReplaceImage(name, position.value, image)];
        }
      }
    }

    /**
     * `setImageFields`: convert and place every image binding once, in the
     * map's (unspecified) iteration order. A null image fails the
     * conversion, which ends the loop after the bindings visited before it.
     */
    method SetImageFields() returns (r: Outcome, ghost order: seq<string>)
      requires form.Some?
      modifies this`trace
      ensures forall name :: name in order ==> name in Images() && Images()[name].Some?
      ensures forall i, j :: 0 <= i < j < |order| ==> order[i] != order[j]
      ensures trace == old(trace) + ImageOps(order, Images(), form.value)
      ensures r.Pass? <==> NoNullImage(Images())
      ensures r.Pass? ==> Enumerates(order, Images().Keys)
      ensures r.Fail? ==> r.error == IllegalState
    {
      order := [];
      ghost var start := trace;
      if imgMap != null && |imgMap.entries| > 0 {
        var images, fieldForm := imgMap.entries, form.value;
        var pending := images.Keys;
        while pending != {}
          invariant pending <= images.Keys
          invariant Enumerates(order, images.Keys - pending)
          invariant forall name :: name in order ==> name in images && images[name].Some?
          invariant trace == start + ImageOps(order, images, fieldForm)
          decreases pending
        {
          var name :| name in pending;
          var value := images[name];
          if value.None? {
            assert !NoNullImage(images);
            return Fail(IllegalState), order;
          }
          ghost var before := trace;
          SetImage(name, value.value);
          Chain(start, before, trace, ImageOps(order, images, fieldForm), ImagePlacement(name, value.value, fieldForm));
          ImageOpsOneMore(order, images, fieldForm, name);
          EnumeratesOneMore(order, images.Keys - pending, name);
          assert images.Keys - (pending - {name}) == (images.Keys - pending) + {name};
          order := order + [name];
          pending := pending - {name};
        }
        assert NoNullImage(images) by {
          forall n | n in images ensures images[n].Some? {
            assert n in order;
          }
        }
      }
      return Pass, order;
    }

    /** `fillFields`: all text bindings first, then the image bindings. */
    method FillFields() returns (r: Outcome, ghost textOrder: seq<string>, ghost imageOrder: seq<string>)
      requires form.Some?
      modifies this`trace
      ensures Current() == old(Current())
      ensures Enumerates(textOrder, Texts().Keys)
      ensures forall name :: name in imageOrder ==> name in Images() && Images()[name].Some?
      ensures forall i, j :: 0 <= i < j < |imageOrder| ==> imageOrder[i] != imageOrder[j]
      ensures trace == old(trace) + (TextOps(textOrder, Texts()) + ImageOps(imageOrder, Images(), form.value))
      ensures r.Pass? <==> NoNullImage(Images())
      ensures r.Pass? ==> Enumerates(imageOrder, Images().Keys)
      ensures r.Fail? ==> r.error == IllegalState
    {
      ghost var start := trace;
      textOrder := SetTextFields();
      ghost var afterTexts := trace;
      r, imageOrder := SetImageFields();
      Chain(start, afterTexts, trace, TextOps(textOrder, Texts()), ImageOps(imageOrder, Images(), form.value));
    }

    /** `end`: compression, removal or flattening, normalisation, then flush and close in a fixed order. */
    method End()
      modifies this`trace
      ensures Current() == old(Current())
      ensures trace == old(trace) + EndOps(fullCompression, removeFields)
    {
      var calls: seq<EngineOp> := [];
      if fullCompression {
        calls := [FullCompression];
      }
      if removeFields {
        calls := calls + [RemoveFields];
      } else {
        calls := calls + [Flatten];
      }
      calls := calls + FINALIZATION;
      trace := trace + calls;
    }

    /** `process`: init, fill, end; the first failure stops the cycle. */
    method Process(parse: seq<Byte> -> Option<Form>) returns (r: Outcome, ghost textOrder: seq<string>, ghost imageOrder: seq<string>)
      requires Valid()
      modifies this`trace, this`form, docInfo.docInfo
      ensures Valid() && Texts() == old(Texts())
      ensures |old(trace)| <= |trace| && trace[..|old(trace)|] == old(trace)
      ensures r.Pass? <==> parse(template[..]).Some? && NoNullImage(Images())
      ensures r.Fail? ==> r.error == IllegalState
      ensures r.Pass? ==> IsRun(trace[|old(trace)|..], textOrder, imageOrder)
      ensures parse(template[..]).Some? && r.Fail? ==> IsStoppedRun(trace[|old(trace)|..], textOrder, imageOrder)
      ensures parse(template[..]).Some? ==>
        && form == parse(template[..])
        && docInfo.docInfo.entries == old(docInfo.docInfo.entries)[CREATOR := Some(MergedCreator(old(docInfo.Creator())))]
      ensures parse(template[..]).None? ==>
        trace == old(trace) && form == old(form) && docInfo.docInfo.entries == old(docInfo.docInfo.entries)
    {
      textOrder, imageOrder := [], [];
      ghost var start := trace;
      r := Init(parse);
      if r.Fail? {
        return;
      }
      ghost var setup := Current();
      ghost var initOps := InitOps(setup.template, setup.info, setup.displayDocTitle);
      ghost var afterInit := trace;
      r, textOrder, imageOrder := FillFields();
      ghost var fillOps := TextOps(textOrder, setup.texts) + ImageOps(imageOrder, setup.images, setup.form.value);
      Chain(start, afterInit, trace, initOps, fillOps);
      if r.Fail? {
        Extends(start, trace, initOps + fillOps);
        return;
      }
      ghost var afterFill := trace;
      End();
      ghost var endOps := EndOps(setup.fullCompression, setup.removeFields);
      Chain(start, afterFill, trace, initOps + fillOps, endOps);
      Extends(start, trace, initOps + fillOps + endOps);
    }

    /** `toBytes()`: one full cycle; its output, or the failure rethrown as an IllegalStateException. */
    method ToBytes(parse: seq<Byte> -> Option<Form>) returns (r: Result<Output>, ghost textOrder: seq<string>, ghost imageOrder: seq<string>)
      requires Valid()
      modifies this`trace, this`form, docInfo.docInfo
      ensures Valid() && Texts() == old(Texts())
      ensures |old(trace)| <= |trace| && trace[..|old(trace)|] == old(trace)
      ensures r.Ok? <==> parse(template[..]).Some? && NoNullImage(Images())
      ensures r.Err? ==> r.error == IllegalState
      ensures r.Ok? ==> r.value == trace[|old(trace)|..] && IsRun(r.value, textOrder, imageOrder)
      ensures parse(template[..]).Some? && r.Err? ==> IsStoppedRun(trace[|old(trace)|..], textOrder, imageOrder)
      ensures parse(template[..]).Some? ==>
        && form == parse(template[..])
        && docInfo.docInfo.entries == old(docInfo.docInfo.entries)[CREATOR := Some(MergedCreator(old(docInfo.Creator())))]
      ensures parse(template[..]).None? ==>
        trace == old(trace) && form == old(form) && docInfo.docInfo.entries == old(docInfo.docInfo.entries)
    {
      var start := |trace|;
      var outcome;
      outcome, textOrder, imageOrder := Process(parse);
      if outcome.Fail? {
        return Err(outcome.error), textOrder, imageOrder;
      }
      return Ok(trace[start..]), textOrder, imageOrder;
    }

    /** `toStream()`: the same cycle as `toBytes`, its bytes wrapped in a stream. */
    method ToStream(parse: seq<Byte> -> Option<Form>) returns (r: Result<Output>, ghost textOrder: seq<string>, ghost imageOrder: seq<string>)
      requires Valid()
      modifies this`trace, this`form, docInfo.docInfo
      ensures Valid() && Texts() == old(Texts())
      ensures |old(trace)| <= |trace| && trace[..|old(trace)|] == old(trace)
      ensures r.Ok? <==> parse(template[..]).Some? && NoNullImage(Images())
      ensures r.Err? ==> r.error == IllegalState
      ensures r.Ok? ==> r.value == trace[|old(trace)|..] && IsRun(r.value, textOrder, imageOrder)
      ensures parse(template[..]).Some? && r.Err? ==> IsStoppedRun(trace[|old(trace)|..], textOrder, imageOrder)
      ensures parse(template[..]).Some? ==>
        && form == parse(template[..])
        && docInfo.docInfo.entries == old(docInfo.docInfo.entries)[CREATOR := Some(MergedCreator(old(docInfo.Creator())))]
      ensures parse(template[..]).None? ==>
        trace == old(trace) && form == old(form) && docInfo.docInfo.entries == old(docInfo.docInfo.entries)
    {
      r, textOrder, imageOrder := ToBytes(parse);
    }

    /**
     * `toFile(String)`: refuses a null or blank path before anything else
     * happens; otherwise one full cycle, whose output is what gets written.
     */
    method ToFile(destPath: Option<string>, parse: seq<Byte> -> Option<Form>)
      returns (r: Result<Output>, ghost textOrder: seq<string>, ghost imageOrder: seq<string>)
      requires Valid()
      modifies this`trace, this`form, docInfo.docInfo
      ensures Valid() && Texts() == old(Texts())
      ensures IsBlank(destPath) ==>
        && r == Err(InvalidArgument)
        && trace == old(trace) && form == old(form) && docInfo.docInfo.entries == old(docInfo.docInfo.entries)
      ensures |old(trace)| <= |trace| && trace[..|old(trace)|] == old(trace)
      ensures r.Ok? <==> !IsBlank(destPath) && parse(template[..]).Some? && NoNullImage(Images())
      ensures !IsBlank(destPath) && r.Err? ==> r.error == IllegalState
      ensures r.Ok? ==> r.value == trace[|old(trace)|..] && IsRun(r.value, textOrder, imageOrder)
      ensures !IsBlank(destPath) && parse(template[..]).Some? && r.Err? ==>
        IsStoppedRun(trace[|old(trace)|..], textOrder, imageOrder)
      ensures !IsBlank(destPath) && parse(template[..]).Some? ==>
        && form == parse(template[..])
        && docInfo.docInfo.entries == old(docInfo.docInfo.entries)[CREATOR := Some(MergedCreator(old(docInfo.Creator())))]
      ensures !IsBlank(destPath) && parse(template[..]).None? ==>
        trace == old(trace) && form == old(form) && docInfo.docInfo.entries == old(docInfo.docInfo.entries)
    {
      if IsBlank(destPath) {
        return Err(InvalidArgument), [], [];
      }
      r, textOrder, imageOrder := ToBytes(parse);
    }
  }
}
