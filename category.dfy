/** The Category model: a node of the category forest. */
module Categories {
  import opened Wrappers
  import opened DataAnnotations

  datatype Category = Category(
    id: int,
    name: string,
    description: Option<string>,
    slug: string,
    parentId: Option<int>)

  /** The category table, keyed by `Id`. */
  type CategoryTable = map<int, Category>

  predicate IsRoot(c: Category) {
    c.parentId.None?
  }

  /** All the validation attributes of the model. */
  predicate ValidCategory(c: Category) {
    && Required(Some(c.name)) && StringLength(Some(c.name), 200, 0)
    && StringLength(c.description, 300, 0)
    && Required(Some(c.slug)) && StringLength(Some(c.slug), 200, 0)
  }

  /** The table is keyed by the categories' own ids, the primary key. */
  predicate KeyedById(table: CategoryTable) {
    forall k :: k in table ==> table[k].id == k
  }

  /** In a table keyed by id, looking a key up finds exactly what a search
      for `x.Id == id` over the rows finds: such a row exists exactly when
      the key is present, and it is the row under that key. */
  lemma LookupById(table: CategoryTable, id: int)
    requires KeyedById(table)
    ensures (exists k :: k in table && table[k].id == id) <==> id in table
    ensures forall k :: k in table && table[k].id == id ==> table[k] == table[id]
  {
    if id in table {
      assert table[id].id == id;
    }
  }

  /** The unique index on `Slug`. */
  predicate SlugsUnique(table: CategoryTable) {
    forall a, b :: a in table && b in table && table[a].slug == table[b].slug ==> a == b
  }

  /** Every parent link names a category of the table. */
  predicate ParentsResolve(table: CategoryTable) {
    forall k :: k in table && table[k].parentId.Some? ==> table[k].parentId.value in table
  }

  lemma ValidCategoryBounds(c: Category)
    requires ValidCategory(c)
    ensures 1 <= |c.name| <= 200 && 1 <= |c.slug| <= 200
    ensures c.description.Some? ==> |c.description.value| <= 300
  {
  }
}
