/** Application constants of config/config.php and script.js. */
module Config {

  /** Prefix of the application's URLs (ROOT_URL): empty when installed at the web root. */
  const RootUrl: string := ""

  /** Foods per page of the catalogue (ITEMS_PER_PAGE). */
  const ItemsPerPage: int := 10

  /** Largest number of foods a comparison accepts (MAX_COMPARISON_ITEMS, `maxSelections` in script.js). */
  const MaxComparisonItems: int := 5

  /** Lifetime of a cache entry in seconds (CACHE_DURATION). */
  const CacheDuration: int := 3600

  /** Idle time after which a PHP session is treated as expired, in seconds. */
  const SessionTimeout: int := 1800

  /**
   * The tracked nutrients, in the declaration order of NUTRIENT_MAPPING
   * (script.js, nutrition.js, comparison.js) and of Food::$nutrient_columns.
   */
  const NutrientKeys: seq<string> := [
    "Energy (kJ)", "Protein (g)", "Fat (g)", "Carbohydrates (g)", "Dietary Fiber (g)",
    "PUFA (g)", "Cholesterol (mg)", "Vitamin A (mg)", "Vitamin E (eq.) (mg)", "Vitamin B1 (mg)",
    "Vitamin B2 (mg)", "Vitamin B6 (mg)", "Total Folic Acid (µg)", "Vitamin C (mg)", "Sodium (mg)",
    "Potassium (mg)", "Calcium (mg)", "Magnesium (mg)", "Phosphorus (mg)", "Iron (mg)", "Zinc (mg)"
  ]

  /** The database column of each nutrient, aligned with NutrientKeys (models/Food.php). */
  const NutrientColumns: seq<string> := [
    "energy_kj", "protein_g", "fat_g", "carbohydrates_g", "dietary_fiber_g",
    "pufa_g", "cholesterol_mg", "vitamin_a_mg", "vitamin_e_mg", "vitamin_b1_mg",
    "vitamin_b2_mg", "vitamin_b6_mg", "total_folic_acid_ug", "vitamin_c_mg", "sodium_mg",
    "potassium_mg", "calcium_mg", "magnesium_mg", "phosphorus_mg", "iron_mg", "zinc_mg"
  ]
}
