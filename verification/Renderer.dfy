/**
 The renderer as it runs: one parameter list and one column set, updated in place while the
 filter is walked. Each method is tied to the pure rendering the theorems speak about.
 */
module Renderer {
  import opened Prelude
  import opened Semantic
  import opened Relational
  import C = Compiler

  /** What is rendered so far and what remains make up the whole list. */
  ghost predicate Remaining(t: DataType, values: seq<Literal>, i: nat, st: C.RenderState, options: seq<Expr>, all: C.Rendered<seq<Expr>>)
    requires i <= |values|
  {
    var rest := C.RenderOptions(t, values[i..], st);
    all.item == options + rest.item && all.state == rest.state
  }

  lemma OptionsStep(t: DataType, values: seq<Literal>, i: nat, st: C.RenderState, options: seq<Expr>, all: C.Rendered<seq<Expr>>)
    requires i < |values| && Remaining(t, values, i, st, options, all)
    ensures var p := C.PushParameter(st, t, values[i]); Remaining(t, values, i + 1, p.state, options + [Param(p.item, t)], all)
  {
    hide C.PushParameter;
    assert values[i..][1..] == values[i + 1..];
    var p := C.PushParameter(st, t, values[i]);
    var rest := C.RenderOptions(t, values[i + 1..], p.state).item;
    assert options + ([Param(p.item, t)] + rest) == (options + [Param(p.item, t)]) + rest;
  }

  class Renderer {
    var parameters: seq<CompiledParameter>
    var columns: set<string>

    constructor ()
      ensures State() == C.RenderState([], {})
    {
      parameters, columns := [], {};
    }

    function State(): C.RenderState
      reads this
    {
      C.RenderState(parameters, columns)
    }

    /** Searches the list from the front; binds a new parameter only if none matches. */
    method PushParameter(t: DataType, l: Literal) returns (position: nat)
      modifies this
      ensures C.Rendered(position, State()) == C.PushParameter(old(State()), t, l)
    {
      var i := 0;
      while i < |parameters|
        invariant 0 <= i <= |parameters|
        invariant C.FindParameter(parameters, t, l) == C.FindParameter(parameters[i..], t, l)
      {
        if parameters[i].dataType == t && parameters[i].value == l {
          return parameters[i].position;
        }
        assert parameters[i..][1..] == parameters[i + 1..];
        i := i + 1;
      }
      position := |parameters| + 1;
      parameters := parameters + [CompiledParameter(position, t, l)];
    }

    method RenderField(model: Model, names: seq<string>, field: Field) returns (r: Result<Expr, C.CompileError>)
      modifies this
      ensures r.Ok? ==> C.RenderField(model, names, field, old(State())) == Ok(C.Rendered(r.value, State()))
      ensures r.Err? ==> C.RenderField(model, names, field, old(State())) == Err(r.error)
    {
      var alias, relation := 0, model.source;
      if field.relationship.Some? {
        var name := field.relationship.value;
        match Lookup(model.relationships, RelationshipName, name) {
          case None => return Err(C.UnknownRelationship(name));
          case Some(rel) =>
            if name !in names {
              return Err(C.UnknownRelationship(name));
            }
            alias, relation := IndexOf(names, name) + 1, rel.target;
        }
      }
      columns := columns + {C.SourceColumn(relation, field.column)};
      return Ok(Column(alias, field.column));
    }

    method RenderOptions(t: DataType, values: seq<Literal>) returns (options: seq<Expr>)
      modifies this
      ensures C.Rendered(options, State()) == C.RenderOptions(t, values, old(State()))
    {
      options := [];
      var i := 0;
      assert values[0..] == values;
      ghost var all := C.RenderOptions(t, values, State());
      while i < |values|
        invariant 0 <= i <= |values|
        invariant Remaining(t, values, i, State(), options, all)
      {
        OptionsStep(t, values, i, State(), options, all);
        var position := PushParameter(t, values[i]);
        options := options + [Param(position, t)];
        i := i + 1;
      }
      assert values[i..] == [] && all.item == options;
    }

    method RenderComparand(model: Model, field: Field, value: Literal) returns (r: Result<Expr, C.CompileError>)
      modifies this
      ensures r.Ok? ==> C.RenderComparand(model, field, value, old(State())) == Ok(C.Rendered(r.value, State()))
      ensures r.Err? ==> C.RenderComparand(model, field, value, old(State())) == Err(r.error)
    {
      if field.dataType == TimestampTzType && value.DateLiteral? {
        if model.timezone.None? {
          return Err(C.MissingTimezone(field.semanticName));
        }
        var zone := PushParameter(TextType, TextLiteral(model.timezone.value));
        var day := PushParameter(C.LiteralType(value), value);
        return Ok(DayStart(zone, day));
      } else {
        var position := PushParameter(field.dataType, value);
        return Ok(Param(position, field.dataType));
      }
    }

    method RenderFilter(model: Model, names: seq<string>, f: C.ResolvedFilter) returns (r: Result<Pred, C.CompileError>)
      modifies this
      ensures r.Ok? ==> C.RenderFilter(model, names, f, old(State())) == Ok(C.Rendered(r.value, State()))
      ensures r.Err? ==> C.RenderFilter(model, names, f, old(State())) == Err(r.error)
      decreases f
    {
      match f
      case RAnd(args) =>
        var items := RenderLogical(model, names, args);
        return if items.Ok? then Ok(PAnd(items.value)) else Err(items.error);
      case ROr(args) =>
        var items := RenderLogical(model, names, args);
        return if items.Ok? then Ok(POr(items.value)) else Err(items.error);
      case RNot(arg) =>
        var item := RenderFilter(model, names, arg);
        return if item.Ok? then Ok(PNot(item.value)) else Err(item.error);
      case RCompare(operator, field, value) =>
        var e := RenderField(model, names, field);
        if e.Err? {
          return Err(e.error);
        }
        var c := RenderComparand(model, field, value);
        return if c.Ok? then Ok(PCompare(operator, e.value, c.value)) else Err(c.error);
      case RIn(field, values) =>
        var e := RenderField(model, names, field);
        if e.Err? {
          return Err(e.error);
        }
        var options := RenderOptions(field.dataType, values);
        return Ok(PIn(e.value, options));
      case RIsNull(field) =>
        var e := RenderField(model, names, field);
        return if e.Ok? then Ok(PIsNull(e.value)) else Err(e.error);
      case RIsNotNull(field) =>
        var e := RenderField(model, names, field);
        return if e.Ok? then Ok(PIsNotNull(e.value)) else Err(e.error);
    }

    method RenderLogical(model: Model, names: seq<string>, fs: seq<C.ResolvedFilter>) returns (r: Result<seq<Pred>, C.CompileError>)
      modifies this
      ensures r.Ok? ==> C.RenderFilters(model, names, fs, old(State())) == Ok(C.Rendered(r.value, State()))
      ensures r.Err? ==> C.RenderFilters(model, names, fs, old(State())) == Err(r.error)
      decreases fs
    {
      if fs == [] {
        return Ok([]);
      }
      var first := RenderFilter(model, names, fs[0]);
      if first.Err? {
        return Err(first.error);
      }
      var rest := RenderLogical(model, names, fs[1..]);
      return if rest.Ok? then Ok([first.value] + rest.value) else Err(rest.error);
    }
  }
}
