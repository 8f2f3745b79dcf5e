/** PHP values a condition is made of, and the Yii query objects the
    compiler reads and extends, taken as values. A Yii `ActiveQuery` is kept
    only as far as the compiler touches it: its classes, its where-clauses in
    call order, its selected columns, and the relation metadata (`primaryModel`,
    `link`, `via`, `from`). */
module Values {
  import opened Php

  datatype Option<T> = None | Some(value: T)

  /** Failures the source reports by raising or by falling through to the
      next `__call` handler. */
  datatype Error =
    | OutOfFuel                   // expansion deeper than the fuel bound (the source would loop)
    | UnknownMethod(name: string) // a virtual call nobody handled
    | NotARelation(name: string)  // `get<Name>` exists on the model but is not a relation
    | NoPrimaryModel              // `$relation->primaryModel` is null
    | NotConvertible              // an object used where PHP needs a string

  datatype Res<T> = Ok(value: T) | Err(error: Error)

  datatype Key = IntKey(i: int) | StrKey(s: string)

  /** A PHP value: scalars, ordered arrays, and query objects (sub-queries). */
  datatype Value =
    | Null
    | Bool(b: bool)
    | Int(i: int)
    | Str(s: string)
    | Arr(entries: seq<Entry>)
    | Sub(q: Query)

  datatype Entry = Entry(key: Key, val: Value)

  /** One call of `where`, `andWhere` or `orWhere`, in the order they were made. */
  datatype Where = Replace(c: Value) | And(c: Value) | Or(c: Value)

  /** One entry of a relation's `link` array: foreign column => local column. */
  datatype Link = Link(foreign: string, local: string)

  /** A relation's `via`: absent, an array `[name, relationQuery, callable]`
      from `via()`, or the pivot query object from `viaTable()`. */
  datatype Via = NoVia | ViaArray(pivot: Query) | ViaTable(pivot: Query)

  datatype Query = Query(
    queryClass: string,            // the ActiveQuery subclass: where condition methods live
    modelClass: string,            // the ActiveRecord class the query selects
    wheres: seq<Where>,
    select: seq<string>,
    primaryModel: Option<string>,  // class of the record a relation query is bound to
    link: seq<Link>,
    via: Via,
    from: seq<string>)

  /** The schema and code the compiler consults by reflection. Method names
      are stored lower-cased: PHP looks methods up case-insensitively. */
  datatype World = World(
    tableOf: string -> string,                      // `Model::tableName()`
    pkOf: string -> string,                         // `Model::getPk()`
    modelMethods: string -> set<string>,            // methods of a model class
    relationOf: (string, string) -> Option<Query>,  // `(new Model)->getX()`, by model and getter, when a relation
    queryMethods: string -> set<string>,            // methods of a query class
    body: (string, string, string, seq<Value>) -> Value,
                                                    // what a condition method returns, by query class,
                                                    // model class, method and arguments
    tokenOf: string -> string)                      // the token a query class holds

  /** PHP truthiness. */
  predicate Truthy(v: Value)
  {
    match v
    case Null => false
    case Bool(b) => b
    case Int(i) => i != 0
    case Str(s) => s != "" && s != "0"
    case Arr(es) => es != []
    case Sub(_) => true
  }

  /** PHP's string conversion (`"$v"`, the `.` operator); an object without
      `__toString` cannot be converted. */
  function ToPhpString(v: Value): Option<string>
  {
    match v
    case Null => Some("")
    case Bool(b) => Some(if b then "1" else "")
    case Int(i) => Some(IntToString(i))
    case Str(s) => Some(s)
    case Arr(_) => Some("Array")
    case Sub(_) => None
  }

  function Values(es: seq<Entry>): seq<Value>
  {
    seq(|es|, k requires 0 <= k < |es| => es[k].val)
  }

  /** `$query->where($c)`: replaces every earlier where-clause. */
  function SetWhere(q: Query, c: Value): Query { q.(wheres := [Replace(c)]) }

  /** `$query->andWhere($c)` */
  function AndWhere(q: Query, c: Value): Query { q.(wheres := q.wheres + [And(c)]) }

  /** `$query->orWhere($c)` */
  function OrWhere(q: Query, c: Value): Query { q.(wheres := q.wheres + [Or(c)]) }

  /** `$query->select($column)` */
  function Select(q: Query, column: string): Query { q.(select := [column]) }

  /** `[$key => $v]` */
  function Single(key: string, v: Value): Value { Arr([Entry(StrKey(key), v)]) }
}
